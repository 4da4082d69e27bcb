/**
 What a conversion of coins does to solvency, whatever the coin is called.  The lookup takes
 a coin whose name reads as an address for the contract at that address, and then the pair's
 own coin is neither escrowed nor burnt.
 */
module SolvencyMargins {
  import opened TokenPairs
  import opened Hex
  import opened PairRegistry
  import opened Ledger
  import opened Bridge
  import opened Proposals
  import opened Chain
  import opened Solvency
  import opened SolvencySteps

  /** By how much the escrow of a coin exceeds the tokens of all module contracts paired with it. */
  ghost function Margin(st: State, d: Denom): int
  {
    Coins(st.bank, d)[st.env.erc20Module] - Liability(st.registry, st.tokens, d)
  }

  lemma MarginCovers(st: State, d: Denom, w: Debts)
    ensures Margin(st, d) + Due(w.coins, d) >= 0
            <==> Liability(st.registry, st.tokens, d) <= Coins(st.bank, d)[st.env.erc20Module] + Due(w.coins, d)
  {
  }

  lemma SolventMargins(st: State, w: Debts)
    ensures OwnSolvent(st, w) <==> forall d :: Margin(st, d) + Due(w.coins, d) >= 0
  {
    hide Liability, Coins, Margin, Due;
    forall d
      ensures Margin(st, d) + Due(w.coins, d) >= 0
              <==> Liability(st.registry, st.tokens, d) <= Coins(st.bank, d)[st.env.erc20Module] + Due(w.coins, d)
    {
      MarginCovers(st, d, w);
    }
    if forall d :: Margin(st, d) + Due(w.coins, d) >= 0 {
      forall d
        ensures Liability(st.registry, st.tokens, d) <= Coins(st.bank, d)[st.env.erc20Module] + Due(w.coins, d)
      {
        assert Margin(st, d) + Due(w.coins, d) >= 0;
      }
    }
  }

  /** A conversion on a live pair has succeeded. */
  ghost predicate Converted(st: State, s: Address, r: Address, d: Denom, a: nat)
  {
    && s != st.env.erc20Module
    && ConvertCoin(st, s, r, d, a).Done?
    && FindPair(st.registry, d).Some?
    && Contract(FindPair(st.registry, d).value) in st.tokens
  }

  /** The coin's name is found to stand for another coin's pair. */
  predicate Mistaken(r: Registry, d: Denom)
  {
    FindPair(r, d).Some? && FindPair(r, d).value.denom != d
  }

  /** Only a coin whose name reads as an address is. */
  lemma MistakenIsHex(r: Registry, d: Denom)
    requires Consistent(r) && Mistaken(r, d)
    ensures IsHexAddress(d)
  {
    FoundPair(r, d);
  }

  // ----- one conversion -----------------------------------------------------

  lemma OwnMargins(st: State, c: Address, s: Address, r: Address, d: Denom, a: nat, e: Denom, f: Denom)
    requires c in st.tokens && Owns(st.registry, c, e) && s != st.env.erc20Module
    requires CoinToOwnToken(st, c, s, r, d, a).Done?
    ensures Margin(CoinToOwnToken(st, c, s, r, d, a).state, f)
            == Margin(st, f) + (if f == d then a else 0) - (if f == e then a else 0)
  {
    hide Liability;
    LiabilityUpdate(st.registry, st.tokens, c, Credit(st.tokens[c], r, a), f);
  }

  lemma OwnGaps(st: State, c: Address, s: Address, r: Address, d: Denom, a: nat, e: Denom, k: Address)
    requires c in st.tokens && Owns(st.registry, c, e)
    requires CoinToOwnToken(st, c, s, r, d, a).Done?
    ensures var st' := CoinToOwnToken(st, c, s, r, d, a).state;
            (Foreign(st', k) <==> Foreign(st, k)) && (Foreign(st, k) ==> Gap(st', k) == Gap(st, k))
  {
  }

  lemma ForeignMargins(st: State, c: Address, s: Address, r: Address, d: Denom, a: nat, f: Denom)
    requires Foreign(st, c) && s != st.env.erc20Module
    requires CoinToForeignToken(st, c, s, r, d, a).Done?
    ensures Margin(CoinToForeignToken(st, c, s, r, d, a).state, f) == Margin(st, f)
  {
    hide Liability;
    LiabilityUpdate(st.registry, st.tokens, c, Move(st.tokens[c], st.env.erc20Module, r, a), f);
  }

  lemma ForeignGaps(st: State, c: Address, s: Address, r: Address, d: Denom, a: nat, k: Address)
    requires Foreign(st, c) && CoinToForeignToken(st, c, s, r, d, a).Done?
    ensures var st' := CoinToForeignToken(st, c, s, r, d, a).state;
            && (Foreign(st', k) <==> Foreign(st, k))
            && (Foreign(st, k) ==>
                  Gap(st', k) == Gap(st, k) - (if k == c then a else 0) + (if CoinOf(st.registry, k) == d then a else 0))
  {
  }

  /** Which of the four routines a successful conversion was, and for which pair. */
  lemma ConvertedBy(st: State, s: Address, r: Address, d: Denom, a: nat)
    requires WellRegistered(st) && Converted(st, s, r, d, a)
    ensures var p, st' := FindPair(st.registry, d).value, ConvertCoin(st, s, r, d, a).state; var c := Contract(p);
            && Registered(st.registry, c, p.contractOwner) && st.registry.pairs[st.registry.byErc20[c]] == p
            && (p.contractOwner == OWNER_MODULE || p.contractOwner == OWNER_EXTERNAL)
            && (p.contractOwner == OWNER_MODULE ==> Owns(st.registry, c, p.denom) && CoinToOwnToken(st, c, s, r, d, a) == Done(st'))
            && (p.contractOwner == OWNER_EXTERNAL ==> CoinToForeignToken(st, c, s, r, d, a) == Done(st'))
            && (!IsHexAddress(d) ==> p.denom == d)
  {
    FoundRegistered(st.registry, d);
    hide IsHexAddress, HexToAddress, FindPair, Contract, GetID, CoinToOwnToken, CoinToForeignToken, Consistent, ContractsIndexed;
  }

  /**
   The whole effect on solvency.  On a module pair, the margin of the coin converted rises by
   the amount and that of the pair's coin falls by it.  On an external pair, the gap of the
   contract falls by the amount and that of the contract whose coin was burnt rises by it.
   The two cancel exactly if the pair's coin is the coin converted.
   */
  lemma ConvertCoinMargins(st: State, s: Address, r: Address, d: Denom, a: nat, f: Denom, k: Address)
    requires WellRegistered(st) && Converted(st, s, r, d, a)
    ensures var p, st' := FindPair(st.registry, d).value, ConvertCoin(st, s, r, d, a).state;
            var own := p.contractOwner == OWNER_MODULE;
            && Margin(st', f) == Margin(st, f) + (if own && f == d then a else 0) - (if own && f == p.denom then a else 0)
            && (Foreign(st', k) <==> Foreign(st, k))
            && (Foreign(st, k) ==>
                  Gap(st', k) == Gap(st, k) - (if !own && k == Contract(p) then a else 0)
                                 + (if !own && CoinOf(st.registry, k) == d then a else 0))
  {
    hide ConvertCoin, FindPair, Contract, WellRegistered, CoinToOwnToken, CoinToForeignToken, Margin, Gap;
    ConvertedBy(st, s, r, d, a);
    var p := FindPair(st.registry, d).value;
    var c := Contract(p);
    if p.contractOwner == OWNER_MODULE {
      OwnMargins(st, c, s, r, d, a, p.denom, f);
      OwnGaps(st, c, s, r, d, a, p.denom, k);
    } else {
      ForeignMargins(st, c, s, r, d, a, f);
      ForeignGaps(st, c, s, r, d, a, k);
    }
  }

  /**
   A conversion on a live pair leaves the bridge solvent exactly if the coin converted is the
   pair's own or the pair had that much to spare.  A coin whose name does not read as an address
   is always the pair's own.
   */
  lemma ConvertCoinSolventIff(st: State, s: Address, r: Address, d: Denom, a: nat)
    requires Inv(st) && Converted(st, s, r, d, a)
    ensures var p, st' := FindPair(st.registry, d).value, ConvertCoin(st, s, r, d, a).state; var c := Contract(p);
            && (Solvent(st') <==>
                  || d == p.denom
                  || (if p.contractOwner == OWNER_MODULE then a <= Margin(st, p.denom) else Foreign(st, c) && a <= Gap(st, c)))
            && (!IsHexAddress(d) ==> d == p.denom)
  {
    hide ConvertCoin, FindPair, Contract, WellRegistered, CoinToOwnToken, CoinToForeignToken, Gap, Denominated, CoinsNamed, Liability,
         IsHexAddress, Coins, Margin, OwnSolvent;
    var p, st' := FindPair(st.registry, d).value, ConvertCoin(st, s, r, d, a).state;
    var c := Contract(p);
    ConvertedBy(st, s, r, d, a);
    AllMargins(st, s, r, d, a);
    SolventMargins(st, NO_DEBTS);
    SolventMargins(st', NO_DEBTS);
    if p.contractOwner == OWNER_EXTERNAL {
      assert Foreign(st, c) && CoinOf(st.registry, c) == p.denom;
    }
  }

  lemma AllMargins(st: State, s: Address, r: Address, d: Denom, a: nat)
    requires WellRegistered(st) && Converted(st, s, r, d, a)
    ensures var p, st' := FindPair(st.registry, d).value, ConvertCoin(st, s, r, d, a).state;
            var own := p.contractOwner == OWNER_MODULE;
            && (forall f :: Margin(st', f) == Margin(st, f) + (if own && f == d then a else 0) - (if own && f == p.denom then a else 0))
            && (forall k :: Foreign(st', k) <==> Foreign(st, k))
            && (forall k :: Foreign(st, k) ==>
                  Gap(st', k) == Gap(st, k) - (if !own && k == Contract(p) then a else 0)
                                 + (if !own && CoinOf(st.registry, k) == d then a else 0))
  {
    hide ConvertCoin, FindPair, Contract, WellRegistered, Margin, Gap;
    var p, st' := FindPair(st.registry, d).value, ConvertCoin(st, s, r, d, a).state;
    var own := p.contractOwner == OWNER_MODULE;
    forall f
      ensures Margin(st', f) == Margin(st, f) + (if own && f == d then a else 0) - (if own && f == p.denom then a else 0)
    {
      ConvertCoinMargins(st, s, r, d, a, f, s);
    }
    forall k
      ensures Foreign(st', k) <==> Foreign(st, k)
      ensures Foreign(st, k) ==>
                Gap(st', k) == Gap(st, k) - (if !own && k == Contract(p) then a else 0)
                               + (if !own && CoinOf(st.registry, k) == d then a else 0)
    {
      ConvertCoinMargins(st, s, r, d, a, d, k);
    }
  }

  // ----- debts --------------------------------------------------------------

  /** What the bridge may come to be short of by a conversion: the amount, if it took another coin than the pair's. */
  ghost function Charge(w: Debts, st: State, s: Address, r: Address, d: Denom, a: nat): Debts
  {
    if Mistaken(st.registry, d) && Converted(st, s, r, d, a) then
      var p := FindPair(st.registry, d).value;
      if p.contractOwner == OWNER_MODULE then w.(coins := w.coins[p.denom := Due(w.coins, p.denom) + a])
      else w.(tokens := w.tokens[Contract(p) := Due(w.tokens, Contract(p)) + a])
    else w
  }

  /** A conversion on a live pair makes the bridge short of no more than it is charged for. */
  lemma ConvertedKeeps(st: State, s: Address, r: Address, d: Denom, a: nat, w: Debts)
    requires InvUpTo(st, w) && Converted(st, s, r, d, a)
    ensures InvUpTo(ConvertCoin(st, s, r, d, a).state, Charge(w, st, s, r, d, a))
  {
    hide ConvertCoin, FindPair, Contract, WellRegistered, CoinToOwnToken, CoinToForeignToken, Gap, Denominated, CoinsNamed, Liability,
         IsHexAddress, Coins, Margin, OwnSolvent;
    var p, st', w' := FindPair(st.registry, d).value, ConvertCoin(st, s, r, d, a).state, Charge(w, st, s, r, d, a);
    ConvertedBy(st, s, r, d, a);
    AllMargins(st, s, r, d, a);
    SolventMargins(st, w);
    SolventMargins(st', w');
    ConvertedRest(st, s, r, d, a);
    if p.contractOwner == OWNER_EXTERNAL {
      assert Foreign(st, Contract(p)) && CoinOf(st.registry, Contract(p)) == p.denom;
    }
  }

  lemma RoutineRest(st: State, c: Address, s: Address, r: Address, d: Denom, a: nat, e: Denom)
    requires c in st.tokens
    ensures var o := CoinToOwnToken(st, c, s, r, d, a);
            o.Done? ==> o.state == st.(bank := o.state.bank, tokens := o.state.tokens) && Supply(o.state.bank, e) <= Supply(st.bank, e)
    ensures var o := CoinToForeignToken(st, c, s, r, d, a);
            o.Done? ==> o.state == st.(bank := o.state.bank, tokens := o.state.tokens) && Supply(o.state.bank, e) <= Supply(st.bank, e)
  {
  }

  lemma ConvertedRest(st: State, s: Address, r: Address, d: Denom, a: nat)
    requires WellRegistered(st) && CoinsNamed(st) && Converted(st, s, r, d, a)
    ensures var st' := ConvertCoin(st, s, r, d, a).state;
            && WellRegistered(st') && CoinsNamed(st')
            && st'.registry == st.registry && st'.metadata == st.metadata
  {
    hide FindPair, Contract, ConvertCoin, CoinToOwnToken, CoinToForeignToken, IsErc20Denom, Consistent, ContractsIndexed, Supply, Coins,
         Owns, Registered, ValidEnv, IsHexAddress;
    ConvertedBy(st, s, r, d, a);
    forall e
      ensures Supply(ConvertCoin(st, s, r, d, a).state.bank, e) <= Supply(st.bank, e)
    {
      RoutineRest(st, Contract(FindPair(st.registry, d).value), s, r, d, a, e);
    }
    RoutineRest(st, Contract(FindPair(st.registry, d).value), s, r, d, a, d);
  }
}
