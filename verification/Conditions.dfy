/**
 When each operation of the bridge succeeds: exact conditions on the registry, the parameters
 and the balances, and what a success is good for.
 */
module Conditions {
  import opened GoInts
  import opened TokenPairs
  import opened Hex
  import opened PairRegistry
  import opened Ledger
  import opened BasisPoints
  import opened Bridge
  import opened BridgeLaws
  import opened GasfreeLaws
  import opened Proposals

  // ----- conversions --------------------------------------------------------

  /** The module and the pair found are on, and the receiver may be sent what the pair converts. */
  ghost predicate Admitted(st: State, s: Address, r: Address, token: GoString)
  {
    && st.params.enableErc20
    && FindPair(st.registry, token).Some?
    && FindPair(st.registry, token).value.enabled
    && r !in st.env.blocked
    && (s == r || FindPair(st.registry, token).value.denom !in st.params.sendDisabled)
  }

  /**
   Coins are converted exactly if the pair admits it and, its contract being alive, the sender
   has them, the receiver is not the zero address and the module, for an external contract,
   has the tokens.
   */
  lemma ConvertCoinSucceeds(st: State, s: Address, r: Address, d: Denom, a: nat)
    requires ValidEnv(st.env)
    ensures ConvertCoin(st, s, r, d, a).Done?
            <==> && Admitted(st, s, r, d)
                 && var p := FindPair(st.registry, d).value; var c, m := Contract(p), st.env.erc20Module;
                    c in st.tokens ==>
                      && 0 < a <= Coins(st.bank, d)[s]
                      && r != ZERO_ADDRESS
                      && (p.contractOwner == OWNER_MODULE || (p.contractOwner == OWNER_EXTERNAL && a <= st.tokens[c][m]))
  {
    hide FindPair, Contract, Coins, Move, Credit, Debit;
  }

  /** Tokens, likewise; the module must have the coins of a module contract, and is no sender of an external one's. */
  lemma ConvertERC20Succeeds(st: State, s: Address, r: Address, token: GoString, a: nat)
    requires ValidEnv(st.env)
    ensures ConvertERC20(st, s, r, token, a).Done?
            <==> && Admitted(st, s, r, token)
                 && var p := FindPair(st.registry, token).value; var c, m := Contract(p), st.env.erc20Module;
                    c in st.tokens ==>
                      && 0 < a <= st.tokens[c][s]
                      && s != ZERO_ADDRESS
                      && ((p.contractOwner == OWNER_MODULE && a <= Coins(st.bank, p.denom)[m])
                          || (p.contractOwner == OWNER_EXTERNAL && s != m))
  {
    hide FindPair, Contract, Coins, Move, Credit, Debit, ForeignTokenToCoin;
    if FindPair(st.registry, token).Some? {
      var p := FindPair(st.registry, token).value;
      if Contract(p) in st.tokens {
        ForeignTokenToCoinClosed(st, Contract(p), s, r, p.denom, a);
      }
    }
  }

  /** A pair whose contract is gone is deleted instead, whatever the amount, and nothing else happens. */
  lemma DeadPairDeleted(st: State, s: Address, r: Address, token: GoString, a: nat)
    requires Admitted(st, s, r, token) && Contract(FindPair(st.registry, token).value) !in st.tokens
    ensures var p, g := FindPair(st.registry, token).value, st.registry;
            var st' := st.(registry := Registry(g.pairs - {GetID(p)}, g.byErc20 - {Contract(p)}, g.byDenom - {p.denom}));
            ConvertCoin(st, s, r, token, a) == Done(st') && ConvertERC20(st, s, r, token, a) == Done(st')
  {
    hide FindPair, Contract, GetID;
  }

  // ----- onboarding ---------------------------------------------------------

  /** A conversion that fails and is not reverted has taken the coins exactly if it got as far as asking for them and they were there. */
  lemma FailedConversionLeaves(st: State, s: Address, r: Address, d: Denom, a: nat)
    requires ConvertCoin(st, s, r, d, a).Failed?
    ensures ConvertCoinUnreverted(st, s, r, d, a)
            == if && Admitted(st, s, r, d)
                  && FindPair(st.registry, d).value.contractOwner in {OWNER_MODULE, OWNER_EXTERNAL}
                  && 0 < a <= Coins(st.bank, d)[s]
               then st.(bank := st.bank[d := Move(Coins(st.bank, d), s, st.env.erc20Module, a)])
               else st
  {
    hide FindPair, Contract, Coins, Move, ConvertCoin;
  }

  // ----- letter case --------------------------------------------------------

  /** The same character, or the small and the capital form of one ASCII letter. */
  predicate SameLetter(x: byte, y: byte)
  {
    x == y || (65 <= x <= 90 && y == x + 32) || (65 <= y <= 90 && x == y + 32)
  }

  predicate SameLetters(a: GoString, b: GoString)
  {
    |a| == |b| && forall i :: 0 <= i < |a| ==> SameLetter(a[i], b[i])
  }

  lemma LowerIff(a: GoString, b: GoString)
    ensures Lower(a) == Lower(b) <==> SameLetters(a, b)
  {
    if Lower(a) == Lower(b) {
      forall i | 0 <= i < |a|
        ensures |a| == |b| && SameLetter(a[i], b[i])
      {
        assert |Lower(a)| == |a| && |Lower(b)| == |b|;
        assert Lower(a)[i] == Lower(b)[i];
      }
      assert |Lower(a)| == |a| && |Lower(b)| == |b|;
    }
  }

  /** Some entry of the list names the pair, by coin or by contract, letter case apart. */
  ghost predicate Listed(entries: seq<GoString>, p: TokenPair)
  {
    exists i :: 0 <= i < |entries| && (SameLetters(entries[i], p.denom) || SameLetters(entries[i], p.erc20Address))
  }

  lemma InteropIff(st: State, token: GoString)
    ensures InteropAllowed(st, token)
            <==> FindPair(st.registry, token).Some? && Listed(st.params.interopTokens, FindPair(st.registry, token).value)
  {
    hide FindPair, Lower, SameLetters;
    if FindPair(st.registry, token).Some? {
      var p, entries := FindPair(st.registry, token).value, st.params.interopTokens;
      forall e: GoString
        ensures Matches(e, p) <==> SameLetters(e, p.denom) || SameLetters(e, p.erc20Address)
      {
        LowerIff(e, p.denom);
        LowerIff(e, p.erc20Address);
      }
      if Listed(entries, p) {
        var i :| 0 <= i < |entries| && (SameLetters(entries[i], p.denom) || SameLetters(entries[i], p.erc20Address));
        assert entries[i] in entries && Matches(entries[i], p);
      }
      if InteropAllowed(st, token) {
        var e :| e in entries && Matches(e, p);
        var i :| 0 <= i < |entries| && entries[i] == e;
        assert SameLetters(entries[i], p.denom) || SameLetters(entries[i], p.erc20Address);
      }
    }
  }

  // ----- gas-free messages --------------------------------------------------

  /** What a conversion of coins leaves the sender, and that the fee does not change by it. */
  lemma AfterConversion(st: State, s: Address, d: Denom, a: nat)
    requires ValidEnv(st.env) && ConvertCoin(st, s, s, d, a).Done?
    ensures FindPair(st.registry, d).Some?
    ensures var st' := ConvertCoin(st, s, s, d, a).state;
            && st'.params == st.params && st'.env == st.env
            && Coins(st'.bank, d)[s]
               == Coins(st.bank, d)[s] - (if Contract(FindPair(st.registry, d).value) in st.tokens then a else 0)
  {
    hide FindPair, Contract, CoinToOwnToken, CoinToForeignToken, MovedWorth;
    var c := Contract(FindPair(st.registry, d).value);
    if c in st.tokens {
      ConvertCoinConserves(st, s, s, d, a);
      KeepsRest(st, c, s, s, d, a);
    }
  }

  /** MsgSendCoinToEVM succeeds exactly for a listed pair and a sender with the amount and the fee. */
  lemma SendCoinToEVMSucceeds(st: State, s: Address, d: Denom, a: nat)
    requires ValidEnv(st.env)
    ensures var f := a * st.params.feeBasisPoints / 10000;
            SendCoinToEVM(st, s, d, a).Done?
            <==> && Admitted(st, s, s, d)
                 && (st.params.feeBasisPoints > 0 ==> f >= 1)
                 && var p := FindPair(st.registry, d).value; var c, m := Contract(p), st.env.erc20Module;
                    && Listed(st.params.interopTokens, p)
                    && if c in st.tokens then
                         && 0 < a && a + f <= Coins(st.bank, d)[s]
                         && s != ZERO_ADDRESS
                         && (p.contractOwner == OWNER_MODULE || (p.contractOwner == OWNER_EXTERNAL && a <= st.tokens[c][m]))
                       else f <= Coins(st.bank, d)[s]
  {
    hide FindPair, Contract, ConvertCoin, DeductFee, InteropAllowed, Listed, Coins, Fee;
    InteropIff(st, d);
    ConvertCoinSucceeds(st, s, s, d, a);
    FeeOf(st, a);
    if ConvertCoin(st, s, s, d, a).Done? {
      AfterConversion(st, s, d, a);
      var st' := ConvertCoin(st, s, s, d, a).state;
      SameFee(st, st', a);
      FeeStep(st', s, d, a);
    }
  }

  lemma FeeOf(st: State, a: nat)
    ensures Fee(st, a) == a * st.params.feeBasisPoints / 10000
  {
    FeeIsFloor(a, st.params.feeBasisPoints);
  }

  /** A conversion of amount and fee, to oneself, on a live listed pair. */
  ghost predicate Convertible(st: State, s: Address, token: GoString, a: nat)
  {
    var f := a * st.params.feeBasisPoints / 10000;
    && Admitted(st, s, s, token)
    && (st.params.feeBasisPoints > 0 ==> f >= 1)
    && var p := FindPair(st.registry, token).value; var c, m := Contract(p), st.env.erc20Module;
       && Listed(st.params.interopTokens, p)
       && c in st.tokens
       && 0 < a && a + f <= st.tokens[c][s]
       && s != ZERO_ADDRESS
       && (p.contractOwner == OWNER_EXTERNAL || (p.contractOwner == OWNER_MODULE && a + f <= Coins(st.bank, p.denom)[m]))
  }

  /** The conversion leg alone. */
  lemma ConvertibleLeg(st: State, s: Address, token: GoString, a: nat)
    requires ValidEnv(st.env)
    ensures var f := Fee(st, a);
            Convertible(st, s, token, a)
            <==> && ConvertERC20(st, s, s, token, a + f).Done? && InteropAllowed(st, token)
                 && (st.params.feeBasisPoints > 0 ==> f >= 1)
                 && FindPair(st.registry, token).Some? && Contract(FindPair(st.registry, token).value) in st.tokens
  {
    hide FindPair, Contract, ConvertERC20, InteropAllowed, Listed, Coins, Fee;
    FeeOf(st, a);
    InteropIff(st, token);
    ConvertERC20Succeeds(st, s, s, token, a + Fee(st, a));
    NoAmountNoFee(a, st.params.feeBasisPoints);
  }

  lemma NoAmountNoFee(a: nat, bp: nat)
    ensures a == 0 ==> a * bp / 10000 == 0
    ensures a * bp / 10000 >= 0
  {
    FeeIsFloor(a, bp);
  }

  /** MsgSendERC20ToCosmos succeeds exactly then; a contract that is gone is no success. */
  lemma SendERC20ToCosmosSucceeds(st: State, s: Address, token: GoString, a: nat)
    requires ValidEnv(st.env) && Consistent(st.registry) && IsHexAddress(token)
    ensures SendERC20ToCosmos(st, s, token, a).Done? <==> Convertible(st, s, token, a)
  {
    hide FindPair, Contract, ConvertERC20, DeductFee, InteropAllowed, Convertible, Consistent, IsHexAddress, Fee;
    var f := Fee(st, a);
    ConvertibleLeg(st, s, token, a);
    if ConvertERC20(st, s, s, token, a + f).Done? {
      NotTheModule(st, s, token, a + f);
      ConversionLeg(st, s, token, a + f);
      if Contract(FindPair(st.registry, token).value) in st.tokens {
        FeeIsCovered(st, s, token, a);
      }
    }
  }

  lemma NotTheModule(st: State, s: Address, token: GoString, a: nat)
    requires ValidEnv(st.env) && ConvertERC20(st, s, s, token, a).Done?
    ensures s != st.env.erc20Module && s != st.env.feeCollector
  {
    hide FindPair, Contract;
  }

  /** The IBC variant succeeds exactly then, provided IBC takes the coins. */
  lemma IbcTransferSucceeds(st: State, s: Address, token: GoString, a: nat, ibc: IbcTransfer)
    requires ValidEnv(st.env) && Consistent(st.registry) && IsHexAddress(token)
    ensures SendERC20ToCosmosAndIBCTransfer(st, s, token, a, ibc).Done? <==> Convertible(st, s, token, a) && !ibc.Rejected?
  {
    hide FindPair, Contract, ConvertERC20, DeductFee, InteropAllowed, Convertible, Consistent, IsHexAddress, Fee, IbcSend, Coins;
    var f := Fee(st, a);
    ConvertibleLeg(st, s, token, a);
    if ConvertERC20(st, s, s, token, a + f).Done? {
      NotTheModule(st, s, token, a + f);
      ConversionLeg(st, s, token, a + f);
      var st', p := ConvertERC20(st, s, s, token, a + f).state, FindPair(st.registry, token).value;
      if Contract(p) in st.tokens {
        NothingConverted(st, s, token, a);
        IbcSendIff(st'.bank, p.denom, s, a, ibc);
        if IbcSend(st'.bank, p.denom, s, a, ibc).Some? {
          IbcSendTakes(st'.bank, p.denom, s, a, ibc, st.env.feeCollector);
          var sent := st'.(bank := IbcSend(st'.bank, p.denom, s, a, ibc).value);
          SameFee(st, sent, a);
          FeeStep(sent, s, p.denom, a);
        }
      }
    }
  }

  lemma NothingConverted(st: State, s: Address, token: GoString, a: nat)
    requires ValidEnv(st.env) && ConvertERC20(st, s, s, token, a + Fee(st, a)).Done?
    requires FindPair(st.registry, token).Some? && Contract(FindPair(st.registry, token).value) in st.tokens
    ensures a > 0
  {
    hide FindPair, Contract, ConvertERC20, Coins, Fee;
    FeeOf(st, a);
    NoAmountNoFee(a, st.params.feeBasisPoints);
    ConvertERC20Succeeds(st, s, s, token, a + Fee(st, a));
  }

  lemma IbcSendIff(b: Bank, d: Denom, from: Address, a: nat, ibc: IbcTransfer)
    ensures IbcSend(b, d, from, a, ibc).Some? <==> !ibc.Rejected? && 0 < a <= Coins(b, d)[from]
  {
  }

  // ----- registration -------------------------------------------------------

  /** "erc20/" and the text of the address. */
  ghost function Erc20Denom(text: GoString): Denom
  {
    [101, 114, 99, 50, 48, 47] + text
  }

  /** An external contract is registered exactly if it is alive, new under address and name, and describes itself. */
  lemma RegisterERC20Succeeds(st: State, text: GoString, details: Option<GoString>)
    ensures var c, d := HexToAddress(text), Erc20Denom(text);
            RegisterERC20(st, text, details).Done?
            <==> && st.params.enableErc20
                 && c in st.tokens && c !in st.registry.byErc20
                 && d !in st.metadata && d !in st.registry.byDenom
                 && details.Some?
  {
    hide HexToAddress, Register;
  }

  /**
   A registered external contract's pair is found, switched on, under the contract's text and
   under its coin; no coin and no token has moved; and every account that may receive can
   convert what it holds at once, to itself or to any other that may.
   */
  lemma RegisteredERC20Works(st: State, text: GoString, details: Option<GoString>, s: Address, r: Address, a: nat)
    requires ValidEnv(st.env) && IsHexAddress(text) && RegisterERC20(st, text, details).Done?
    ensures var st', d := RegisterERC20(st, text, details).state, Erc20Denom(text);
            var p := TokenPair(text, d, true, OWNER_EXTERNAL);
            && st' == st.(registry := st'.registry, metadata := st.metadata[d := Metadata(d, d, details.value)])
            && FindPair(st'.registry, text) == Some(p) && FindPair(st'.registry, d) == Some(p)
            && HexToAddress(text) in st.tokens
            && (r !in st.env.blocked && s !in st.env.blocked && s != ZERO_ADDRESS && (s == r || d !in st.params.sendDisabled)
                && 0 < a <= st.tokens[HexToAddress(text)][s]
                ==> ConvertERC20(st', s, r, text, a).Done?)
  {
    hide HexToAddress, IsHexAddress, GetID, ConvertERC20;
    var st', d := RegisterERC20(st, text, details).state, Erc20Denom(text);
    NotHex(text);
    assert CreateDenom(text) == d;
    ConvertERC20Succeeds(st', s, r, text, a);
  }

  lemma NotHex(text: GoString)
    ensures !IsHexAddress(Erc20Denom(text))
  {
    var d := Erc20Denom(text);
    assert d[0] == 101 && d[1] == 114;
    assert d[1] in d;
  }

  /** "CANTO" stands in the text at place `i`. */
  ghost predicate CantoAt(s: GoString, i: int)
  {
    0 <= i <= |s| - 5 && s[i..i + 5] == [67, 65, 78, 84, 79]
  }

  /** A coin is registered exactly if it exists, its name is not registered, and its metadata is new or as known. */
  lemma RegisterCoinSucceeds(st: State, md: Metadata, text: GoString)
    ensures RegisterCoin(st, md, text).Done?
            <==> && st.params.enableErc20
                 && (forall i :: !CantoAt(md.base, i))
                 && md.name !in st.registry.byDenom
                 && Coins(st.bank, md.base) != multiset{}
                 && (md.base in st.metadata ==> st.metadata[md.base] == md)
                 && HexToAddress(text) !in st.tokens
  {
    ContainsIff(md.base);
    hide HexToAddress, Register, Contains;
  }

  lemma ContainsIff(s: GoString)
    ensures Contains(s, EVM_DENOM) <==> exists i :: CantoAt(s, i)
  {
    if Contains(s, EVM_DENOM) {
      var i :| 0 <= i <= |s| && EVM_DENOM <= s[i..];
      assert s[i..i + 5] == s[i..][..5] == EVM_DENOM;
      assert CantoAt(s, i);
    }
    if i :| CantoAt(s, i) {
      assert EVM_DENOM == s[i..][..5];
    }
  }

  /** A registered coin's pair is found, switched on, and its contract, empty at first, takes the coin at once. */
  lemma RegisteredCoinWorks(st: State, md: Metadata, text: GoString, s: Address, r: Address, a: nat)
    requires ValidEnv(st.env) && IsHexAddress(text) && RegisterCoin(st, md, text).Done?
    ensures var st', c := RegisterCoin(st, md, text).state, HexToAddress(text);
            var p := TokenPair(text, md.base, true, OWNER_MODULE);
            && st' == st.(registry := st'.registry, tokens := st.tokens[c := multiset{}], metadata := st.metadata[md.base := md])
            && FindPair(st'.registry, text) == Some(p)
            && (!IsHexAddress(md.base) ==> FindPair(st'.registry, md.base) == Some(p))
            && (!IsHexAddress(md.base) && r !in st.env.blocked && r != ZERO_ADDRESS && (s == r || md.base !in st.params.sendDisabled)
                && 0 < a <= Coins(st.bank, md.base)[s]
                ==> ConvertCoin(st', s, r, md.base, a).Done?)
  {
    hide HexToAddress, IsHexAddress, GetID, ConvertCoin, Contains, Supply;
    ConvertCoinSucceeds(RegisterCoin(st, md, text).state, s, r, md.base, a);
  }

  /** A pair is toggled exactly if it is found, and is then found with its flag flipped; nothing else changes. */
  lemma ToggleSucceeds(st: State, token: GoString)
    requires Consistent(st.registry)
    ensures ToggleConversion(st, token).Done? <==> FindPair(st.registry, token).Some?
    ensures var o := ToggleConversion(st, token);
            o.Done? ==>
              var p := FindPair(st.registry, token).value; var q := p.(enabled := !p.enabled);
              && o.state == st.(registry := st.registry.(pairs := st.registry.pairs[GetID(p) := q]))
              && FindPair(o.state.registry, token) == Some(q)
  {
    hide FindPair, GetID, Consistent;
    if FindPair(st.registry, token).Some? {
      ToggleEffect(st.registry, token);
    }
  }
}
