/** What the gas-free messages cost and yield. */
module GasfreeLaws {
  import opened TokenPairs
  import opened Hex
  import opened PairRegistry
  import opened Ledger
  import opened BasisPoints
  import opened Bridge
  import opened BridgeLaws

  /** The fee step fails exactly for lack of funds or for an amount too small to charge. */
  lemma FeeStep(st: State, payer: Address, d: Denom, a: nat)
    ensures DeductFee(st, payer, d, a).Done?
            <==> Fee(st, a) <= Coins(st.bank, d)[payer] && (st.params.feeBasisPoints > 0 ==> Fee(st, a) >= 1)
    ensures var o, f := DeductFee(st, payer, d, a), Fee(st, a);
            o.Done? ==>
              && o.state == st.(bank := o.state.bank)
              && (forall e :: e != d ==> Coins(o.state.bank, e) == Coins(st.bank, e))
              && Coins(o.state.bank, d) == Move(Coins(st.bank, d), payer, st.env.feeCollector, f)
  {
    FeeIsFloor(a, st.params.feeBasisPoints);
  }

  /** A conversion that only deleted the pair leaves nothing to be found under its contract. */
  lemma DeletedIsGone(r: Registry, token: GoString)
    requires Consistent(r) && IsHexAddress(token) && FindPair(r, token).Some?
    ensures FindPair(DeleteTokenPair(r, FindPair(r, token).value), token).None?
  {
    hide IsHexAddress, HexToAddress, GetID;
    FoundPair(r, token);
  }

  /** The conversion leg of the two messages that start from tokens. */
  lemma ConversionLeg(st: State, sender: Address, token: GoString, a: nat)
    requires ValidEnv(st.env) && Consistent(st.registry) && IsHexAddress(token) && sender != st.env.erc20Module
    requires ConvertERC20(st, sender, sender, token, a).Done?
    ensures FindPair(st.registry, token).Some?
    ensures var s, p := ConvertERC20(st, sender, sender, token, a).state, FindPair(st.registry, token).value;
            && sender !in st.env.blocked
            && s.env == st.env && s.params == st.params && s.metadata == st.metadata
            && (FindPair(s.registry, token).Some? <==> Contract(p) in st.tokens)
            && (Contract(p) in st.tokens ==>
                  && s.registry == st.registry && s.tokens.Keys == st.tokens.Keys
                  && s.tokens[Contract(p)][sender] == st.tokens[Contract(p)][sender] - a
                  && Coins(s.bank, p.denom)[sender] == Coins(st.bank, p.denom)[sender] + a
                  && forall k :: k != sender && k != st.env.erc20Module ==> Coins(s.bank, p.denom)[k] == Coins(st.bank, p.denom)[k])
  {
    hide Contract, HexToAddress, OwnTokenToCoin, ForeignTokenToCoin, IsHexAddress;
    var p := FindPair(st.registry, token).value;
    if Contract(p) in st.tokens {
      ConvertERC20Conserves(st, sender, sender, token, a);
      OthersUntouched(st, Contract(p), sender, p.denom, a);
    } else {
      DeletedIsGone(st.registry, token);
    }
  }

  lemma OthersUntouched(st: State, c: Address, x: Address, d: Denom, a: nat)
    requires ValidEnv(st.env) && c in st.tokens
    ensures var o := OwnTokenToCoin(st, c, x, x, d, a);
            o.Done? ==> forall k :: k != x && k != st.env.erc20Module ==> Coins(o.state.bank, d)[k] == Coins(st.bank, d)[k]
    ensures var o := ForeignTokenToCoin(st, c, x, x, d, a);
            o.Done? ==> forall k :: k != x && k != st.env.erc20Module ==> Coins(o.state.bank, d)[k] == Coins(st.bank, d)[k]
  {
  }

  /** After a conversion of amount plus fee, the fee step cannot fail for lack of funds. */
  lemma FeeIsCovered(st: State, sender: Address, token: GoString, a: nat)
    requires ValidEnv(st.env) && Consistent(st.registry) && IsHexAddress(token) && sender != st.env.erc20Module
    requires ConvertERC20(st, sender, sender, token, a + Fee(st, a)).Done?
    requires Contract(FindPair(st.registry, token).value) in st.tokens
    ensures var s, d := ConvertERC20(st, sender, sender, token, a + Fee(st, a)).state, FindPair(st.registry, token).value.denom;
            DeductFee(s, sender, d, a).Failed? <==> Fee(st, a) == 0 && st.params.feeBasisPoints > 0
  {
    hide ConvertERC20, FindPair, Contract, DeductFee, Fee, IsHexAddress;
    ConversionLeg(st, sender, token, a + Fee(st, a));
    var s, d := ConvertERC20(st, sender, sender, token, a + Fee(st, a)).state, FindPair(st.registry, token).value.denom;
    SameFee(st, s, a);
    FeeStep(s, sender, d, a);
  }

  lemma SameFee(s: State, t: State, a: nat)
    requires s.params == t.params
    ensures Fee(s, a) == Fee(t, a)
  {
  }

  /**
   MsgSendERC20ToCosmos costs the amount plus the fee in tokens, yields the amount in
   coins and brings the fee to the fee collector.  It never succeeds on a dead contract.
   */
  lemma SendERC20ToCosmosAccounting(st: State, sender: Address, token: GoString, a: nat)
    requires ValidEnv(st.env) && Consistent(st.registry) && IsHexAddress(token) && sender != st.env.erc20Module
    requires SendERC20ToCosmos(st, sender, token, a).Done?
    ensures var st', p, f := SendERC20ToCosmos(st, sender, token, a).state, FindPair(st.registry, token).value, Fee(st, a);
            var c, d, k := Contract(p), p.denom, st.env.feeCollector;
            && c in st.tokens && c in st'.tokens && st'.registry == st.registry
            && st'.tokens[c][sender] == st.tokens[c][sender] - (a + f)
            && Coins(st'.bank, d)[sender] == Coins(st.bank, d)[sender] + a
            && Coins(st'.bank, d)[k] == Coins(st.bank, d)[k] + f
            && (st.params.feeBasisPoints > 0 ==> f >= 1)
  {
    hide ConvertERC20, FindPair, Contract, DeductFee, Fee, InteropAllowed, IsHexAddress;
    var f := Fee(st, a);
    ConversionLeg(st, sender, token, a + f);
    var s, p := ConvertERC20(st, sender, sender, token, a + f).state, FindPair(st.registry, token).value;
    SameFee(st, s, a);
    FeeStep(s, sender, p.denom, a);
  }

  /** IBC takes the coins from the sender, into whichever account escrows them. */
  lemma IbcSendTakes(b: Bank, d: Denom, from: Address, a: nat, ibc: IbcTransfer, k: Address)
    requires IbcSend(b, d, from, a, ibc).Some? && from != k
    ensures var b' := IbcSend(b, d, from, a, ibc).value;
            && 0 < a <= Coins(b, d)[from]
            && Coins(b', d)[from] == Coins(b, d)[from] - a + (if ibc == Escrowed(from) then a else 0)
            && Coins(b', d)[k] == Coins(b, d)[k] + (if ibc == Escrowed(k) then a else 0)
            && (ibc.Escrowed? && ibc.account != from ==> Coins(b', d)[ibc.account] == Coins(b, d)[ibc.account] + a)
            && (ibc.Burnt? ==> Supply(b', d) == Supply(b, d) - a)
  {
  }

  /**
   The IBC variant costs the same tokens, nets the sender no coins, sends the amount
   out and brings the fee to the fee collector.
   */
  lemma IbcTransferAccounting(st: State, sender: Address, token: GoString, a: nat, ibc: IbcTransfer)
    requires ValidEnv(st.env) && Consistent(st.registry) && IsHexAddress(token) && sender != st.env.erc20Module
    requires SendERC20ToCosmosAndIBCTransfer(st, sender, token, a, ibc).Done?
    ensures var st', p, f := SendERC20ToCosmosAndIBCTransfer(st, sender, token, a, ibc).state, FindPair(st.registry, token).value, Fee(st, a);
            var c, d, k := Contract(p), p.denom, st.env.feeCollector;
            && c in st.tokens && c in st'.tokens && st'.registry == st.registry
            && st'.tokens[c][sender] == st.tokens[c][sender] - (a + f)
            && Coins(st'.bank, d)[sender] == Coins(st.bank, d)[sender] + (if ibc == Escrowed(sender) then a else 0)
            && Coins(st'.bank, d)[k] == Coins(st.bank, d)[k] + f + (if ibc == Escrowed(k) then a else 0)
            && !ibc.Rejected? && a > 0
            && (ibc.Escrowed? && ibc.account !in {sender, k, st.env.erc20Module} ==>
                  Coins(st'.bank, d)[ibc.account] == Coins(st.bank, d)[ibc.account] + a)
            && (st.params.feeBasisPoints > 0 ==> f >= 1)
  {
    hide ConvertERC20, FindPair, Contract, DeductFee, Fee, InteropAllowed, IsHexAddress, IbcSend;
    var f, k := Fee(st, a), st.env.feeCollector;
    ConversionLeg(st, sender, token, a + f);
    var s, p := ConvertERC20(st, sender, sender, token, a + f).state, FindPair(st.registry, token).value;
    var b := IbcSend(s.bank, p.denom, sender, a, ibc).value;
    IbcSendTakes(s.bank, p.denom, sender, a, ibc, k);
    SameFee(st, s.(bank := b), a);
    FeeStep(s.(bank := b), sender, p.denom, a);
    RejectedIsNone(s.bank, p.denom, sender, a);
  }

  lemma RejectedIsNone(b: Bank, d: Denom, from: Address, a: nat)
    ensures IbcSend(b, d, from, a, Rejected).None?
  {
  }

  /**
   MsgSendCoinToEVM on a live contract costs the amount plus the fee in coins and
   yields the amount in tokens; on a dead one it costs the fee and drops the pair.
   */
  lemma SendCoinToEVMAccounting(st: State, sender: Address, d: Denom, a: nat)
    requires ValidEnv(st.env) && sender != st.env.erc20Module
    requires SendCoinToEVM(st, sender, d, a).Done?
    ensures var st', p, f, k := SendCoinToEVM(st, sender, d, a).state, FindPair(st.registry, d).value, Fee(st, a), st.env.feeCollector;
            var c := Contract(p);
            && Coins(st'.bank, d)[k] == Coins(st.bank, d)[k] + f
            && (st.params.feeBasisPoints > 0 ==> f >= 1)
            && (c in st.tokens ==>
                  && c in st'.tokens && st'.registry == st.registry
                  && st'.tokens[c][sender] == st.tokens[c][sender] + a
                  && Coins(st'.bank, d)[sender] == Coins(st.bank, d)[sender] - (a + f))
            && (c !in st.tokens ==>
                  && st'.registry == DeleteTokenPair(st.registry, p) && st'.tokens == st.tokens
                  && Coins(st'.bank, d)[sender] == Coins(st.bank, d)[sender] - f)
  {
    hide FindPair, Contract, DeductFee, Fee, InteropAllowed, CoinToOwnToken, CoinToForeignToken;
    var p := FindPair(st.registry, d).value;
    var c := Contract(p);
    var s := ConvertCoin(st, sender, sender, d, a).state;
    if c in st.tokens {
      ConvertCoinConserves(st, sender, sender, d, a);
      CollectorUntouched(st, c, sender, d, a);
    }
    SameFee(st, s, a);
    FeeStep(s, sender, d, a);
  }

  lemma CollectorUntouched(st: State, c: Address, x: Address, d: Denom, a: nat)
    requires ValidEnv(st.env) && c in st.tokens && x !in st.env.blocked
    ensures var o, k := CoinToOwnToken(st, c, x, x, d, a), st.env.feeCollector;
            o.Done? ==> Coins(o.state.bank, d)[k] == Coins(st.bank, d)[k]
    ensures var o, k := CoinToForeignToken(st, c, x, x, d, a), st.env.feeCollector;
            o.Done? ==> Coins(o.state.bank, d)[k] == Coins(st.bank, d)[k]
  {
  }
}
