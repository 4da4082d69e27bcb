/** What one conversion keeps, and what undoes it. */
module BridgeLaws {
  import opened TokenPairs
  import opened Hex
  import opened PairRegistry
  import opened Ledger
  import opened Bridge

  /** An account's stake in a pair: coins and tokens together. */
  ghost function Worth(st: State, d: Denom, c: Address, x: Address): nat
    requires c in st.tokens
  {
    Coins(st.bank, d)[x] + st.tokens[c][x]
  }

  /** The stakes of all accounts but the module's own, however many there are. */
  ghost function OutsideTotal(st: State, d: Denom, c: Address): int
    requires c in st.tokens
  {
    |Coins(st.bank, d)| + |st.tokens[c]| - Worth(st, d, c, st.env.erc20Module)
  }

  /** Nothing but the holdings of one coin and one contract differs. */
  ghost predicate OnlyPairChanged(st: State, st': State, d: Denom, c: Address)
  {
    && st' == st.(bank := st'.bank, tokens := st'.tokens)
    && (forall e :: e != d ==> Coins(st'.bank, e) == Coins(st.bank, e))
    && st'.tokens.Keys == st.tokens.Keys
    && (forall k :: k in st.tokens && k != c ==> st'.tokens[k] == st.tokens[k])
  }

  /** `a` units of the pair went from one account to another; no third account noticed. */
  ghost predicate MovedWorth(st: State, st': State, d: Denom, c: Address, from: Address, to: Address, a: nat)
    requires c in st.tokens && c in st'.tokens
  {
    && (forall x :: x != st.env.erc20Module ==>
          Worth(st', d, c, x) == Worth(st, d, c, x) - (if x == from then a else 0) + (if x == to then a else 0))
    && OutsideTotal(st', d, c) == OutsideTotal(st, d, c)
    && OnlyPairChanged(st, st', d, c)
  }

  // ----- conservation -------------------------------------------------------

  /** The state with one coin's and one contract's holdings replaced. */
  ghost function WithHoldings(st: State, d: Denom, coins: Holdings, c: Address, held: Holdings): State
  {
    st.(bank := st.bank[d := coins], tokens := st.tokens[c := held])
  }

  lemma ReplacingMoves(st: State, d: Denom, coins: Holdings, c: Address, held: Holdings, from: Address, to: Address, a: nat)
    requires c in st.tokens
    requires forall x :: x != st.env.erc20Module ==>
               coins[x] + held[x] == Worth(st, d, c, x) - (if x == from then a else 0) + (if x == to then a else 0)
    requires var m := st.env.erc20Module; |coins| + |held| - coins[m] - held[m] == OutsideTotal(st, d, c)
    ensures MovedWorth(st, WithHoldings(st, d, coins, c, held), d, c, from, to, a)
  {
  }

  lemma CoinToTokenMoves(st: State, c: Address, sender: Address, receiver: Address, d: Denom, a: nat, own: bool)
    requires c in st.tokens && sender != st.env.erc20Module && receiver != st.env.erc20Module
    requires var o := if own then CoinToOwnToken(st, c, sender, receiver, d, a) else CoinToForeignToken(st, c, sender, receiver, d, a);
             o.Done?
    ensures var o := if own then CoinToOwnToken(st, c, sender, receiver, d, a) else CoinToForeignToken(st, c, sender, receiver, d, a);
            && c in o.state.tokens
            && MovedWorth(st, o.state, d, c, sender, receiver, a)
            && Coins(o.state.bank, d)[sender] == Coins(st.bank, d)[sender] - a
            && o.state.tokens[c][receiver] == st.tokens[c][receiver] + a
  {
    hide MovedWorth;
    var coins, held, m := Coins(st.bank, d), st.tokens[c], st.env.erc20Module;
    if own {
      ReplacingMoves(st, d, Move(coins, sender, m, a), c, Credit(held, receiver, a), sender, receiver, a);
    } else {
      ReplacingMoves(st, d, Debit(coins, sender, a), c, Move(held, m, receiver, a), sender, receiver, a);
    }
  }

  lemma ForeignDone(st: State, c: Address, sender: Address, receiver: Address, d: Denom, a: nat)
    requires c in st.tokens && ForeignTokenToCoin(st, c, sender, receiver, d, a).Done?
    ensures a <= st.tokens[c][sender]
    ensures ForeignTokenToCoin(st, c, sender, receiver, d, a).state
            == WithHoldings(st, d, Credit(Coins(st.bank, d), receiver, a), c, Move(st.tokens[c], sender, st.env.erc20Module, a))
  {
    hide Credit, Move;
  }

  lemma TokenToCoinMoves(st: State, c: Address, sender: Address, receiver: Address, d: Denom, a: nat, own: bool)
    requires c in st.tokens && sender != st.env.erc20Module && receiver != st.env.erc20Module
    requires var o := if own then OwnTokenToCoin(st, c, sender, receiver, d, a) else ForeignTokenToCoin(st, c, sender, receiver, d, a);
             o.Done?
    ensures var o := if own then OwnTokenToCoin(st, c, sender, receiver, d, a) else ForeignTokenToCoin(st, c, sender, receiver, d, a);
            && c in o.state.tokens
            && MovedWorth(st, o.state, d, c, sender, receiver, a)
            && Coins(o.state.bank, d)[receiver] == Coins(st.bank, d)[receiver] + a
            && o.state.tokens[c][sender] == st.tokens[c][sender] - a
  {
    hide MovedWorth, ForeignTokenToCoin;
    var coins, held, m := Coins(st.bank, d), st.tokens[c], st.env.erc20Module;
    if own {
      ReplacingMoves(st, d, Move(coins, m, receiver, a), c, Debit(held, sender, a), sender, receiver, a);
    } else {
      ForeignDone(st, c, sender, receiver, d, a);
      ReplacingMoves(st, d, Credit(coins, receiver, a), c, Move(held, sender, m, a), sender, receiver, a);
    }
  }

  /** Tokens of a pair come without its own coin leaving: the stakes outside the module grow. */
  lemma OtherCoinTaken(st: State, c: Address, sender: Address, receiver: Address, d: Denom, a: nat, own: bool, e: Denom)
    requires c in st.tokens && sender != st.env.erc20Module && receiver != st.env.erc20Module && d != e
    requires var o := if own then CoinToOwnToken(st, c, sender, receiver, d, a) else CoinToForeignToken(st, c, sender, receiver, d, a);
             o.Done?
    ensures var o := if own then CoinToOwnToken(st, c, sender, receiver, d, a) else CoinToForeignToken(st, c, sender, receiver, d, a);
            && c in o.state.tokens && a > 0
            && Coins(o.state.bank, e) == Coins(st.bank, e)
            && OutsideTotal(o.state, e, c) == OutsideTotal(st, e, c) + a
  {
  }

  /**
   MsgConvertCoin on a live pair takes exactly the amount in coins from the sender and gives it
   in tokens to the receiver; of that coin and those tokens together nothing is gained or lost.
   Of the pair's own coin and tokens the same holds exactly if the coin converted is the
   pair's own; otherwise the stakes outside the module grow by the amount.
   */
  lemma ConvertCoinConserves(st: State, sender: Address, receiver: Address, d: Denom, a: nat)
    requires ValidEnv(st.env) && sender != st.env.erc20Module
    requires ConvertCoin(st, sender, receiver, d, a).Done?
    requires Contract(FindPair(st.registry, d).value) in st.tokens
    ensures var st', p := ConvertCoin(st, sender, receiver, d, a).state, FindPair(st.registry, d).value; var c := Contract(p);
            && c in st'.tokens
            && MovedWorth(st, st', d, c, sender, receiver, a)
            && Coins(st'.bank, d)[sender] == Coins(st.bank, d)[sender] - a
            && st'.tokens[c][receiver] == st.tokens[c][receiver] + a
            && (MovedWorth(st, st', p.denom, c, sender, receiver, a) <==> p.denom == d)
            && OutsideTotal(st', p.denom, c) == OutsideTotal(st, p.denom, c) + (if p.denom == d then 0 else a)
  {
    hide Contract, FindPair, CoinToOwnToken, CoinToForeignToken, MovedWorth, OutsideTotal;
    var p := FindPair(st.registry, d).value;
    var c, own := Contract(p), p.contractOwner == OWNER_MODULE;
    CoinToTokenMoves(st, c, sender, receiver, d, a, own);
    MovedKeepsTotal(st, ConvertCoin(st, sender, receiver, d, a).state, d, c, sender, receiver, a);
    if p.denom != d {
      OtherCoinTaken(st, c, sender, receiver, d, a, own, p.denom);
      MovedKeepsTotal(st, ConvertCoin(st, sender, receiver, d, a).state, p.denom, c, sender, receiver, a);
    }
  }

  lemma MovedKeepsTotal(st: State, st': State, d: Denom, c: Address, from: Address, to: Address, a: nat)
    requires c in st.tokens && c in st'.tokens
    ensures MovedWorth(st, st', d, c, from, to, a) ==> OutsideTotal(st', d, c) == OutsideTotal(st, d, c)
  {
  }

  /** MsgConvertERC20 on a live pair, likewise. */
  lemma ConvertERC20Conserves(st: State, sender: Address, receiver: Address, token: GoString, a: nat)
    requires ValidEnv(st.env) && sender != st.env.erc20Module
    requires ConvertERC20(st, sender, receiver, token, a).Done?
    requires Contract(FindPair(st.registry, token).value) in st.tokens
    ensures var st', p := ConvertERC20(st, sender, receiver, token, a).state, FindPair(st.registry, token).value;
            && Contract(p) in st'.tokens
            && MovedWorth(st, st', p.denom, Contract(p), sender, receiver, a)
            && Coins(st'.bank, p.denom)[receiver] == Coins(st.bank, p.denom)[receiver] + a
            && st'.tokens[Contract(p)][sender] == st.tokens[Contract(p)][sender] - a
  {
    hide Contract, FindPair, OwnTokenToCoin, ForeignTokenToCoin, MovedWorth;
    var p := FindPair(st.registry, token).value;
    TokenToCoinMoves(st, Contract(p), sender, receiver, p.denom, a, p.contractOwner == OWNER_MODULE);
  }

  // ----- refusals -----------------------------------------------------------

  /** No conversion of either direction gets past a switched-off module or pair, a blocked receiver, or a frozen coin. */
  lemma GuardsRefuse(st: State, s: Address, r: Address, token: GoString, a: nat)
    requires var p := FindPair(st.registry, token);
             || !st.params.enableErc20 || p.None? || !p.value.enabled || r in st.env.blocked
             || (s != r && p.value.denom in st.params.sendDisabled)
    ensures ConvertCoin(st, s, r, token, a).Failed? && ConvertERC20(st, s, r, token, a).Failed?
  {
    hide FindPair;
  }

  /** A pair toggled off refuses every conversion under both of its names until toggled again. */
  lemma ToggledOffRefuses(st: State, token: GoString, s: Address, r: Address, name: GoString, a: nat)
    requires Bijective(st.registry) && FindPair(st.registry, token).Some?
    requires var p := FindPair(st.registry, token).value;
             p.enabled && !IsHexAddress(p.denom) && (name == p.denom || name == p.erc20Address)
    ensures Toggle(st.registry, token).Some?
    ensures var st' := st.(registry := Toggle(st.registry, token).value);
            ConvertCoin(st', s, r, name, a).Failed? && ConvertERC20(st', s, r, name, a).Failed?
  {
    hide FindPair, ConvertCoin, ConvertERC20, GetID, Consistent, ContractsIndexed, DenomsIndexed, IsHexAddress, Toggle;
    var q := FindPair(st.registry, token).value.(enabled := false);
    ToggleEffect(st.registry, token);
    ToggleKeeps(st.registry, token);
    var r' := Toggle(st.registry, token).value;
    LookupsAgree(r', q);
    GuardsRefuse(st.(registry := r'), s, r, name, a);
  }

  // ----- inverses -----------------------------------------------------------

  lemma OwnRoundTrip(st: State, c: Address, s: Address, r: Address, d: Denom, a: nat)
    requires ValidEnv(st.env) && c in st.tokens && s !in st.env.blocked && r !in st.env.blocked
    requires CoinToOwnToken(st, c, s, r, d, a).Done?
    ensures OwnTokenToCoin(CoinToOwnToken(st, c, s, r, d, a).state, c, r, s, d, a) == Done(st)
  {
    var m, coins := st.env.erc20Module, Coins(st.bank, d);
    MoveBack(coins, s, m, a);
    CreditThenDebit(st.tokens[c], r, a);
    hide Move, Credit, Debit;
    var st' := CoinToOwnToken(st, c, s, r, d, a).state;
    assert st'.bank[d := coins] == st.bank;
    assert st'.tokens[c := st.tokens[c]] == st.tokens;
    assert a <= st'.tokens[c][r] by { TokenCredited(st.tokens[c], r, a); }
  }

  lemma ForeignRoundTrip(st: State, c: Address, s: Address, r: Address, d: Denom, a: nat)
    requires ValidEnv(st.env) && c in st.tokens && s !in st.env.blocked && r !in st.env.blocked
    requires CoinToForeignToken(st, c, s, r, d, a).Done?
    ensures ForeignTokenToCoin(CoinToForeignToken(st, c, s, r, d, a).state, c, r, s, d, a) == Done(st)
  {
    var m, coins := st.env.erc20Module, Coins(st.bank, d);
    MoveBack(st.tokens[c], m, r, a);
    var st' := CoinToForeignToken(st, c, s, r, d, a).state;
    assert Credit(Debit(coins, s, a), s, a) == coins;
    assert st'.tokens[c][m] + a == st.tokens[c][m];
    hide Move, Credit, Debit;
    assert st'.bank[d := coins] == st.bank;
    assert st'.tokens[c := st.tokens[c]] == st.tokens;
  }

  /** How a found pair is found again under any text of its contract. */
  lemma FoundByContract(r: Registry, token: GoString, text: GoString)
    requires Consistent(r) && ContractsIndexed(r) && FindPair(r, token).Some?
    requires IsHexAddress(text) && HexToAddress(text) == Contract(FindPair(r, token).value)
    ensures FindPair(r, text) == FindPair(r, token)
  {
    hide IsHexAddress, HexToAddress, GetID;
    FoundPair(r, token);
  }

  /** The coins taken are still gone once the pair's own coin has been released or minted. */
  lemma OtherCoinStaysTaken(st: State, c: Address, s: Address, r: Address, d: Denom, a: nat, e: Denom)
    requires c in st.tokens && d != e && s != st.env.erc20Module
    ensures CoinToOwnToken(st, c, s, r, d, a).Done? ==>
              OwnTokenToCoin(CoinToOwnToken(st, c, s, r, d, a).state, c, r, s, e, a) != Done(st)
    ensures CoinToForeignToken(st, c, s, r, d, a).Done? ==>
              ForeignTokenToCoin(CoinToForeignToken(st, c, s, r, d, a).state, c, r, s, e, a) != Done(st)
  {
    var own, foreign := CoinToOwnToken(st, c, s, r, d, a), CoinToForeignToken(st, c, s, r, d, a);
    if own.Done? {
      assert Coins(own.state.bank, d)[s] < Coins(st.bank, d)[s];
      KeepsOtherCoins(own.state, c, r, s, e, a, d);
    }
    if foreign.Done? {
      assert Coins(foreign.state.bank, d)[s] < Coins(st.bank, d)[s];
      KeepsOtherCoins(foreign.state, c, r, s, e, a, d);
    }
  }

  lemma KeepsOtherCoins(st: State, c: Address, s: Address, r: Address, e: Denom, a: nat, d: Denom)
    requires c in st.tokens && d != e
    ensures var o := OwnTokenToCoin(st, c, s, r, e, a); o.Done? ==> Coins(o.state.bank, d) == Coins(st.bank, d)
    ensures var o := ForeignTokenToCoin(st, c, s, r, e, a); o.Done? ==> Coins(o.state.bank, d) == Coins(st.bank, d)
  {
  }

  /** The way back is the routine of the other direction on the same pair. */
  lemma WayBack(st: State, s: Address, r: Address, d: Denom, a: nat, text: GoString)
    requires ValidEnv(st.env) && Consistent(st.registry) && ContractsIndexed(st.registry)
    requires ConvertCoin(st, s, r, d, a).Done?
    requires Contract(FindPair(st.registry, d).value) in st.tokens
    requires s !in st.env.blocked && (s == r || FindPair(st.registry, d).value.denom !in st.params.sendDisabled)
    requires IsHexAddress(text) && HexToAddress(text) == Contract(FindPair(st.registry, d).value)
    ensures FindPair(st.registry, d).Some?
    ensures var p, st' := FindPair(st.registry, d).value, ConvertCoin(st, s, r, d, a).state; var c := Contract(p);
            && c in st'.tokens && r !in st.env.blocked
            && if p.contractOwner == OWNER_MODULE then
                 && CoinToOwnToken(st, c, s, r, d, a) == Done(st')
                 && ConvertERC20(st', r, s, text, a) == OwnTokenToCoin(st', c, r, s, p.denom, a)
               else
                 && CoinToForeignToken(st, c, s, r, d, a) == Done(st')
                 && ConvertERC20(st', r, s, text, a) == ForeignTokenToCoin(st', c, r, s, p.denom, a)
  {
    hide Contract, FindPair, CoinToOwnToken, CoinToForeignToken, OwnTokenToCoin, ForeignTokenToCoin, HexToAddress, IsHexAddress,
         Consistent, ContractsIndexed;
    FoundByContract(st.registry, d, text);
    KeepsRest(st, Contract(FindPair(st.registry, d).value), s, r, d, a);
  }

  /**
   Converting coins of a live pair and then the same amount of tokens back succeeds and
   restores both ledgers and both supplies, exactly if the coin converted is the pair's own.
   */
  lemma ConvertThereAndBack(st: State, s: Address, r: Address, d: Denom, a: nat, text: GoString)
    requires ValidEnv(st.env) && Consistent(st.registry) && ContractsIndexed(st.registry)
    requires ConvertCoin(st, s, r, d, a).Done?
    requires Contract(FindPair(st.registry, d).value) in st.tokens
    requires s !in st.env.blocked && (s == r || FindPair(st.registry, d).value.denom !in st.params.sendDisabled)
    requires IsHexAddress(text) && HexToAddress(text) == Contract(FindPair(st.registry, d).value)
    ensures ConvertERC20(ConvertCoin(st, s, r, d, a).state, r, s, text, a) == Done(st)
            <==> FindPair(st.registry, d).value.denom == d
  {
    hide Contract, FindPair, ConvertCoin, ConvertERC20, CoinToOwnToken, CoinToForeignToken, OwnTokenToCoin, ForeignTokenToCoin,
         HexToAddress, IsHexAddress, Consistent, ContractsIndexed;
    WayBack(st, s, r, d, a, text);
    var p := FindPair(st.registry, d).value;
    var c := Contract(p);
    if p.denom != d {
      OtherCoinStaysTaken(st, c, s, r, d, a, p.denom);
    } else if p.contractOwner == OWNER_MODULE {
      OwnRoundTrip(st, c, s, r, d, a);
    } else {
      ForeignRoundTrip(st, c, s, r, d, a);
    }
  }

  lemma KeepsRest(st: State, c: Address, s: Address, r: Address, d: Denom, a: nat)
    requires c in st.tokens
    ensures var o := CoinToOwnToken(st, c, s, r, d, a);
            o.Done? ==> o.state.registry == st.registry && o.state.params == st.params && o.state.env == st.env && c in o.state.tokens
    ensures var o := CoinToForeignToken(st, c, s, r, d, a);
            o.Done? ==> o.state.registry == st.registry && o.state.params == st.params && o.state.env == st.env && c in o.state.tokens
  {
  }

  /** The same holdings of every coin and every contract, and the same of all else. */
  ghost predicate SameState(s: State, t: State)
  {
    s == t.(bank := s.bank) && forall d :: Coins(s.bank, d) == Coins(t.bank, d)
  }

  lemma OwnRoundTripBack(st: State, c: Address, s: Address, r: Address, d: Denom, a: nat)
    requires ValidEnv(st.env) && c in st.tokens && s !in st.env.blocked
    requires OwnTokenToCoin(st, c, s, r, d, a).Done?
    ensures var o := CoinToOwnToken(OwnTokenToCoin(st, c, s, r, d, a).state, c, r, s, d, a);
            o.Done? && SameState(o.state, st)
  {
    var m, coins, held := st.env.erc20Module, Coins(st.bank, d), st.tokens[c];
    MoveBack(coins, m, r, a);
    assert Credit(Debit(held, s, a), s, a) == held;
    hide Move, Credit, Debit;
    var st' := OwnTokenToCoin(st, c, s, r, d, a).state;
    assert st'.tokens[c := held] == st.tokens;
  }

  lemma ForeignRoundTripBack(st: State, c: Address, s: Address, r: Address, d: Denom, a: nat)
    requires ValidEnv(st.env) && c in st.tokens && s !in st.env.blocked
    requires ForeignTokenToCoin(st, c, s, r, d, a).Done?
    ensures var o := CoinToForeignToken(ForeignTokenToCoin(st, c, s, r, d, a).state, c, r, s, d, a);
            o.Done? && SameState(o.state, st)
  {
    hide Move, Credit, Debit, ForeignTokenToCoin;
    ForeignTokenToCoinClosed(st, c, s, r, d, a);
    var m, coins, held := st.env.erc20Module, Coins(st.bank, d), st.tokens[c];
    MoveBack(held, s, m, a);
    CreditThenDebit(coins, r, a);
    TokenCredited(coins, r, a);
    var st' := ForeignTokenToCoin(st, c, s, r, d, a).state;
    assert st'.tokens == st.tokens[c := Move(held, s, m, a)];
    assert st'.tokens[c := held] == st.tokens;
  }

  /** The tokens of one contract are no business of another's conversion. */
  lemma KeepsOtherTokens(st: State, k: Address, s: Address, r: Address, d: Denom, a: nat, c: Address)
    requires k in st.tokens && c in st.tokens && c != k
    ensures var o := CoinToOwnToken(st, k, s, r, d, a); o.Done? ==> c in o.state.tokens && o.state.tokens[c] == st.tokens[c]
    ensures var o := CoinToForeignToken(st, k, s, r, d, a); o.Done? ==> c in o.state.tokens && o.state.tokens[c] == st.tokens[c]
  {
  }

  /** A conversion of tokens shows in the contract. */
  lemma TokensLeave(st: State, c: Address, s: Address, r: Address, d: Denom, a: nat)
    requires ValidEnv(st.env) && c in st.tokens
    ensures var o := OwnTokenToCoin(st, c, s, r, d, a); o.Done? ==> c in o.state.tokens && o.state.tokens[c] != st.tokens[c]
    ensures var o := ForeignTokenToCoin(st, c, s, r, d, a); o.Done? ==> c in o.state.tokens && o.state.tokens[c] != st.tokens[c]
  {
    ForeignTokenToCoinClosed(st, c, s, r, d, a);
    hide ForeignTokenToCoin;
    var own, foreign := OwnTokenToCoin(st, c, s, r, d, a), ForeignTokenToCoin(st, c, s, r, d, a);
    if own.Done? {
      assert own.state.tokens[c][s] < st.tokens[c][s];
    }
    if foreign.Done? {
      assert foreign.state.tokens[c][s] < st.tokens[c][s];
    }
  }

  /** A conversion on another pair does not bring the tokens back. */
  lemma OtherPairDoesNotRestore(st: State, st': State, s: Address, r: Address, d: Denom, a: nat, c: Address)
    requires st'.registry == st.registry && Consistent(st.registry) && ContractsIndexed(st.registry)
    requires c in st.tokens && c in st'.tokens && st'.tokens[c] != st.tokens[c]
    requires FindPair(st.registry, d).Some? ==> Contract(FindPair(st.registry, d).value) != c
    ensures var o := ConvertCoin(st', s, r, d, a); !(o.Done? && SameState(o.state, st))
  {
    hide Contract, FindPair, CoinToOwnToken, CoinToForeignToken, HexToAddress, Consistent, ContractsIndexed;
    if FindPair(st.registry, d).Some? {
      var k := Contract(FindPair(st.registry, d).value);
      if k in st'.tokens {
        KeepsOtherTokens(st', k, s, r, d, a, c);
      }
    }
  }

  /**
   Converting tokens of a live pair and then the coins back restores every holding, exactly if
   the pair is found under its coin.
   */
  lemma ConvertBackAndThere(st: State, s: Address, r: Address, token: GoString, a: nat)
    requires ValidEnv(st.env) && Consistent(st.registry) && ContractsIndexed(st.registry)
    requires ConvertERC20(st, s, r, token, a).Done?
    requires var p := FindPair(st.registry, token).value;
             Contract(p) in st.tokens && (s == r || p.denom !in st.params.sendDisabled)
    requires s !in st.env.blocked
    ensures var p := FindPair(st.registry, token).value;
            var o := ConvertCoin(ConvertERC20(st, s, r, token, a).state, r, s, p.denom, a);
            o.Done? && SameState(o.state, st) <==> FindPair(st.registry, p.denom) == Some(p)
  {
    hide Contract, FindPair, CoinToOwnToken, CoinToForeignToken, OwnTokenToCoin, ForeignTokenToCoin, HexToAddress, SameState,
         Consistent, ContractsIndexed, ValidEnv;
    var p := FindPair(st.registry, token).value;
    var c, d := Contract(p), p.denom;
    var st' := ConvertERC20(st, s, r, token, a).state;
    assert st'.registry == st.registry && st'.params == st.params && st'.env == st.env && c in st'.tokens by {
      KeepsRestBack(st, c, s, r, d, a);
    }
    if FindPair(st.registry, d) != Some(p) {
      TokensLeave(st, c, s, r, d, a);
      if FindPair(st.registry, d).Some? {
        OtherContract(st.registry, token, d);
      }
      OtherPairDoesNotRestore(st, st', r, s, d, a, c);
    } else if p.contractOwner == OWNER_MODULE {
      OwnRoundTripBack(st, c, s, r, d, a);
    } else {
      ForeignRoundTripBack(st, c, s, r, d, a);
    }
  }

  /** Two pairs that are found have two contracts. */
  lemma OtherContract(r: Registry, token: GoString, d: GoString)
    requires Consistent(r) && ContractsIndexed(r) && FindPair(r, token).Some? && FindPair(r, d).Some?
    requires FindPair(r, token) != FindPair(r, d)
    ensures Contract(FindPair(r, token).value) != Contract(FindPair(r, d).value)
  {
    hide FindPair, Contract, GetID, IsHexAddress;
    FoundPair(r, token);
    FoundPair(r, d);
  }

  lemma KeepsRestBack(st: State, c: Address, s: Address, r: Address, d: Denom, a: nat)
    requires c in st.tokens
    ensures var o := OwnTokenToCoin(st, c, s, r, d, a);
            o.Done? ==> o.state.registry == st.registry && o.state.params == st.params && o.state.env == st.env && c in o.state.tokens
    ensures var o := ForeignTokenToCoin(st, c, s, r, d, a);
            o.Done? ==> o.state.registry == st.registry && o.state.params == st.params && o.state.env == st.env && c in o.state.tokens
  {
  }

  // ----- untrusted contracts ------------------------------------------------

  /** The conforming contract's case has a closed form of its own. */
  lemma ForeignTokenToCoinClosed(st: State, c: Address, sender: Address, receiver: Address, d: Denom, a: nat)
    requires ValidEnv(st.env) && c in st.tokens
    ensures var m := st.env.erc20Module;
            ForeignTokenToCoin(st, c, sender, receiver, d, a)
            == if 0 < a <= st.tokens[c][sender] && sender != m && sender != ZERO_ADDRESS && receiver !in st.env.blocked
               then Done(st.(bank := st.bank[d := Credit(Coins(st.bank, d), receiver, a)],
                             tokens := st.tokens[c := Move(st.tokens[c], sender, m, a)]))
               else Failed
  {
  }

  /** With a conforming contract the module can never convert its own escrow. */
  lemma ModuleCannotConvert(st: State, receiver: Address, token: GoString, a: nat)
    requires ValidEnv(st.env)
    requires FindPair(st.registry, token).Some? && Contract(FindPair(st.registry, token).value) in st.tokens
    requires FindPair(st.registry, token).value.contractOwner == OWNER_EXTERNAL
    ensures ConvertERC20(st, st.env.erc20Module, receiver, token, a).Failed?
  {
    hide FindPair, Contract;
    var p := FindPair(st.registry, token).value;
    ForeignTokenToCoinClosed(st, Contract(p), st.env.erc20Module, receiver, p.denom, a);
  }
}
