/**
 The inputs for which conservation, the way back and solvency fail: a coin that has the address
 of a registered contract for a name.
 */
module Insolvency {
  import opened TokenPairs
  import opened Hex
  import opened PairRegistry
  import opened Ledger
  import opened Bridge
  import opened BridgeLaws
  import opened Proposals
  import opened Chain
  import opened Solvency
  import opened SolvencySteps
  import opened SolvencyMargins
  import opened SolvencyRuns

  /** The conversion of a coin named like the contract of a registered pair goes through on that pair. */
  lemma FoundAsContract(r: Registry, d: Denom, c: Address)
    requires Consistent(r) && IsHexAddress(d) && HexToAddress(d) == c && c in r.byErc20
    ensures FindPair(r, d) == Some(r.pairs[r.byErc20[c]]) && Contract(r.pairs[r.byErc20[c]]) == c
  {
  }

  // ----- module contracts ---------------------------------------------------

  /**
   On a chain with nothing registered: metadata `md` that can be registered at a fresh contract
   `text`, and an account `x` that holds `a` of a coin `d` named like that contract.
   */
  ghost predicate Namesake(st: State, md: Metadata, text: GoString, d: Denom, x: Address, a: nat)
  {
    && ValidEnv(st.env) && st.registry == EMPTY_REGISTRY && CoinsNamed(st) && st.params.enableErc20
    && Supply(st.bank, md.base) > 0 && !Contains(md.base, EVM_DENOM) && !IsErc20Denom(md.base)
    && (md.base in st.metadata ==> st.metadata[md.base] == md)
    && IsHexAddress(text) && HexToAddress(text) !in st.tokens
    && IsHexAddress(d) && HexToAddress(d) == HexToAddress(text) && d != md.base
    && x !in st.env.blocked && x != ZERO_ADDRESS && 0 < a <= Coins(st.bank, d)[x]
  }

  /** The coin can be registered. */
  lemma NamesakeRegisters(st: State, md: Metadata, text: GoString, d: Denom, x: Address, a: nat)
    requires Namesake(st, md, text, d, x, a)
    ensures Allowed(st, PropRegisterCoin(md, text))
    ensures var mid, p := Step(st, PropRegisterCoin(md, text)), TokenPair(text, md.base, true, OWNER_MODULE);
            && RegisterCoin(st, md, text) == Done(mid)
            && mid == st.(metadata := mid.metadata, tokens := mid.tokens, registry := Register(EMPTY_REGISTRY, p))
            && Contract(p) in mid.tokens
  {
    hide IsHexAddress, HexToAddress, Contains, IsErc20Denom, Register, CoinsNamed, Supply;
  }

  /** The coin is registered, and its namesake converts on its pair. */
  lemma NamesakeConverts(st: State, md: Metadata, text: GoString, d: Denom, x: Address, a: nat)
    requires Namesake(st, md, text, d, x, a)
    ensures Allowed(st, PropRegisterCoin(md, text))
    ensures var mid := Step(st, PropRegisterCoin(md, text));
            && Inv(mid) && mid.env == st.env && mid.bank == st.bank
            && FindPair(mid.registry, d) == Some(TokenPair(text, md.base, true, OWNER_MODULE))
            && Mistaken(mid.registry, d) && Converted(mid, x, x, d, a)
  {
    hide IsHexAddress, HexToAddress, Contains, IsErc20Denom, GetID, CoinsNamed, Step, RegisterCoin, Supply, Allowed, InvUpTo;
    NamesakeRegisters(st, md, text, d, x, a);
    NothingRegistered(st, NO_DEBTS);
    RegisterCoinKeeps(st, md, text, NO_DEBTS);
    var mid, p := Step(st, PropRegisterCoin(md, text)), TokenPair(text, md.base, true, OWNER_MODULE);
    assert Consistent(mid.registry);
    FoundAsContract(mid.registry, d, HexToAddress(text));
    assert FindPair(mid.registry, d) == Some(p);
    hide FindPair, Consistent;
  }

  /** With less than the amount in escrow, tokens are issued that no coin covers. */
  lemma InsolventRun(st: State, md: Metadata, text: GoString, d: Denom, x: Address, a: nat)
    requires Namesake(st, md, text, d, x, a) && Coins(st.bank, md.base)[st.env.erc20Module] < a
    ensures !Solvent(Run(st, [PropRegisterCoin(md, text), MsgConvertCoin(x, x, d, a)]))
  {
    hide Namesake, Step, ConvertCoin, FindPair, Contract, Solvent, Liability;
    var op, op' := PropRegisterCoin(md, text), MsgConvertCoin(x, x, d, a);
    NamesakeConverts(st, md, text, d, x, a);
    var mid := Step(st, op);
    MarginInEscrow(mid, md.base);
    ConvertCoinSolventIff(mid, x, x, d, a);
    TwoSteps(st, op, op');
    MessageStep(mid, x, d, a);
  }

  lemma MessageStep(st: State, x: Address, d: Denom, a: nat)
    requires ConvertCoin(st, x, x, d, a).Done?
    ensures Step(st, MsgConvertCoin(x, x, d, a)) == ConvertCoin(st, x, x, d, a).state
  {
    hide ConvertCoin;
  }

  lemma TwoSteps(st: State, op: Op, op': Op)
    ensures Run(st, [op, op']) == Step(Step(st, op), op')
  {
    hide Step;
    assert [op, op'][1..] == [op'];
    assert Run(Step(st, op), [op']) == Run(Step(Step(st, op), op'), []);
  }

  lemma MarginInEscrow(st: State, d: Denom)
    ensures Margin(st, d) <= Coins(st.bank, d)[st.env.erc20Module]
  {
  }

  /** Of the pair's own coin and tokens the conversion makes more, and converting back does not undo it. */
  lemma NeitherConservedNorUndone(st: State, md: Metadata, text: GoString, d: Denom, x: Address, a: nat)
    requires Namesake(st, md, text, d, x, a)
    ensures var mid, c := Step(st, PropRegisterCoin(md, text)), HexToAddress(text);
            && ConvertCoin(mid, x, x, d, a).Done? && c in mid.tokens
            && var st' := ConvertCoin(mid, x, x, d, a).state;
               && c in st'.tokens
               && OutsideTotal(st', md.base, c) > OutsideTotal(mid, md.base, c)
               && ConvertERC20(st', x, x, text, a) != Done(mid)
  {
    hide Step, ConvertCoin, ConvertERC20, FindPair, OutsideTotal, MovedWorth, IsHexAddress, HexToAddress, CoinsNamed, Denominated,
         OwnSolvent, ForeignSolvent, Consistent, ContractsIndexed, Contains, IsErc20Denom;
    NamesakeConverts(st, md, text, d, x, a);
    var mid := Step(st, PropRegisterCoin(md, text));
    ConvertCoinConserves(mid, x, x, d, a);
    ConvertThereAndBack(mid, x, x, d, a, text);
  }

  // ----- external contracts -------------------------------------------------

  /**
   From a state in which an external contract's tokens are escrowed exactly as its coin is in
   circulation, tokens are released for which the pair's coin stays in circulation.
   */
  lemma InsolventStep(st: State, d: Denom, x: Address, c: Address, a: nat)
    requires Inv(st) && st.params.enableErc20 && Foreign(st, c) && st.registry.pairs[st.registry.byErc20[c]].enabled
    requires Gap(st, c) == 0 && IsHexAddress(d) && HexToAddress(d) == c
    requires x !in st.env.blocked && x != ZERO_ADDRESS
    requires 0 < a <= Coins(st.bank, d)[x] && a <= st.tokens[c][st.env.erc20Module]
    ensures !Solvent(Step(st, MsgConvertCoin(x, x, d, a)))
  {
    hide IsHexAddress, HexToAddress, IsErc20Denom, GetID, Liability, CoinsNamed, Denominated, OwnSolvent, ForeignSolvent, Solvent,
         ContractsIndexed;
    FoundAsContract(st.registry, d, c);
    ForeignCoin(st.registry, st.metadata, c);
    assert Converted(st, x, x, d, a);
    hide ConvertCoin, FindPair, Gap;
    ConvertCoinSolventIff(st, x, x, d, a);
    MessageStep(st, x, d, a);
  }
}
