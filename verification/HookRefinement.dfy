/**
 The hook refines the message: a transaction followed by the hook has the effect of the
 same transaction with each transfer to the module replaced by a MsgConvertERC20 from
 and to the sender.
 */
module HookRefinement {
  import opened TokenPairs
  import opened Hex
  import opened PairRegistry
  import opened Ledger
  import opened Bridge
  import opened BridgeLaws
  import opened Hook
  import opened Chain
  import opened Solvency
  import opened SolvencySteps
  import opened SolvencyHook
  import opened SolvencyRuns

  /** The action asks for a conversion: tokens of a registered contract sent to the module. */
  predicate Converts(st: State, x: Action)
  {
    !x.Approval? && Target(x) == st.env.erc20Module && x.amount > 0 && x.contract in st.registry.byErc20
  }

  /** The pair a registered contract belongs to. */
  function PairOf(r: Registry, c: Address): TokenPair
    requires c in r.byErc20 && r.byErc20[c] in r.pairs
  {
    r.pairs[r.byErc20[c]]
  }

  /** The message in place of a transfer to the module; any other action as it is. */
  function Direct(st: State, x: Action): Outcome
    requires Consistent(st.registry)
  {
    if Converts(st, x) then
      ConvertERC20(st, Source(x), Source(x), PairOf(st.registry, x.contract).erc20Address, x.amount)
    else
      match Act(st.tokens, x)
      case None => Failed
      case Some(t) => Done(st.(tokens := t))
  }

  /** The transaction with messages in place of transfers to the module. */
  ghost function DirectAll(st: State, xs: seq<Action>): Outcome
    decreases |xs|
  {
    if xs == [] then Done(st)
    else if !Consistent(st.registry) then Failed
    else
      match Direct(st, xs[0])
      case Failed => Failed
      case Done(s) => DirectAll(s, xs[1..])
  }

  /** A conforming action: transfers to the module are by accounts that may receive, of pairs switched on. */
  ghost predicate Fits(st: State, x: Action)
  {
    && MayAct(st, x)
    && |Source(x).bytes| == 20
    && (Converts(st, x) ==>
          && x.Transfer?
          && x.from !in st.env.blocked
          && st.registry.byErc20[x.contract] in st.registry.pairs
          && PairOf(st.registry, x.contract).enabled
          && PairOf(st.registry, x.contract).contractOwner in {OWNER_MODULE, OWNER_EXTERNAL})
  }

  // ----- burning commutes with what others do -------------------------------

  lemma DebitsCommute(h: Holdings, x: Address, y: Address, a: nat, b: nat)
    requires x != y && a <= h[x] && b <= h[y]
    ensures b <= Debit(h, x, a)[y] && a <= Debit(h, y, b)[x]
    ensures Debit(Debit(h, x, a), y, b) == Debit(Debit(h, y, b), x, a)
  {
  }

  lemma DebitCreditCommute(h: Holdings, x: Address, y: Address, a: nat, b: nat)
    requires a <= h[x]
    ensures a <= Credit(h, y, b)[x] && h[x] <= Credit(h, y, b)[x]
    ensures Credit(Debit(h, x, a), y, b) == Debit(Credit(h, y, b), x, a)
  {
  }

  lemma ActOnCommutes(h: Holdings, x: Action, m: Address, a: nat)
    requires a <= h[m] && Source(x) != m && ActOn(h, x).Some?
    ensures h[m] <= ActOn(h, x).value[m]
    ensures ActOn(Debit(h, m, a), x) == Some(Debit(ActOn(h, x).value, m, a))
  {
    match x
    case Transfer(_, from, to, b) =>
      DebitsCommute(h, m, from, a, b);
      DebitsCommute(h, m, from, 0, b);
      DebitCreditCommute(Debit(h, from, b), m, to, a, b);
    case HolderBurn(_, from, b) =>
      DebitsCommute(h, m, from, a, b);
    case OwnerMint(_, to, b) =>
      DebitCreditCommute(h, m, to, a, b);
    case Approval(_, _, _, _) =>
  }

  lemma BurnCommutesOnce(t: Tokens, x: Action, c: Address, m: Address, a: nat)
    requires c in t && a <= t[c][m] && Source(x) != m && Act(t, x).Some?
    ensures var t' := Act(t, x).value;
            && c in t' && t[c][m] <= t'[c][m]
            && Act(t[c := Debit(t[c], m, a)], x) == Some(t'[c := Debit(t'[c], m, a)])
  {
    hide Act, ActOn, Debit, Source;
    var b := t[c := Debit(t[c], m, a)];
    var t' := Act(t, x).value;
    ActIsActOn(t, x);
    ActIsActOn(b, x);
    if x.contract == c {
      ActOnCommutes(t[c], x, m, a);
    }
    assert Act(b, x).value == t'[c := Debit(t'[c], m, a)];
  }

  lemma {:induction false} BurnCommutes(t: Tokens, xs: seq<Action>, c: Address, m: Address, a: nat)
    requires c in t && a <= t[c][m] && (forall x :: x in xs ==> Source(x) != m) && ActAll(t, xs).Some?
    ensures var t' := ActAll(t, xs).value;
            && c in t' && a <= t'[c][m]
            && ActAll(t[c := Debit(t[c], m, a)], xs) == Some(t'[c := Debit(t'[c], m, a)])
    decreases |xs|
  {
    hide Act, Debit, Source;
    if xs != [] {
      assert xs[0] in xs;
      BurnCommutesOnce(t, xs[0], c, m, a);
      BurnCommutes(Act(t, xs[0]).value, xs[1..], c, m, a);
    }
  }

  // ----- one transfer to the module -----------------------------------------

  /** The guards of the hook let exactly the converting transfers through. */
  lemma RequestedIffConverts(st: State, x: Action)
    requires Consistent(st.registry) && Fits(st, x)
    ensures Requested(st, LogOf(x)).Some? <==> Converts(st, x)
    ensures Converts(st, x) ==>
              Requested(st, LogOf(x)) == Some(Request(PairOf(st.registry, x.contract), Source(x), x.amount))
  {
    hide BytesToAddress, Topic, HexToAddress, IsHexAddress;
    TopicRoundTrip(Source(x));
    TopicRoundTrip(Target(x));
  }

  /** The message finds the pair and passes every guard. */
  lemma MessageAdmitted(st: State, c: Address, from: Address, a: nat)
    requires Consistent(st.registry) && st.params.enableErc20 && c in st.registry.byErc20 && c in st.tokens
    requires PairOf(st.registry, c).enabled && from !in st.env.blocked
    ensures var p := PairOf(st.registry, c);
            ConvertERC20(st, from, from, p.erc20Address, a)
            == if p.contractOwner == OWNER_MODULE then OwnTokenToCoin(st, c, from, from, p.denom, a)
               else if p.contractOwner == OWNER_EXTERNAL then ForeignTokenToCoin(st, c, from, from, p.denom, a)
               else Failed
  {
    hide IsHexAddress, HexToAddress, OwnTokenToCoin, ForeignTokenToCoin;
    var p := PairOf(st.registry, c);
    assert FindPair(st.registry, p.erc20Address) == Some(p);
    assert Contract(p) == c;
  }

  /** The hook's burn and release, both going through. */
  lemma ServeOwnDone(st: State, c: Address, p: TokenPair, from: Address, a: nat)
    requires c in st.tokens && p.contractOwner == OWNER_MODULE && st.env.erc20Module != ZERO_ADDRESS
    requires 0 < a <= st.tokens[c][st.env.erc20Module] && from !in st.env.blocked
    requires a <= Coins(st.bank, p.denom)[st.env.erc20Module]
    ensures var m, coins := st.env.erc20Module, Coins(st.bank, p.denom);
            Serve(st, c, Request(p, from, a))
            == WithHoldings(st, p.denom, Move(coins, m, from, a), c, Debit(st.tokens[c], m, a))
  {
    hide Move, Debit;
  }

  /** The hook's mint and release, both going through. */
  lemma ServeForeignDone(st: State, c: Address, p: TokenPair, from: Address, a: nat)
    requires p.contractOwner == OWNER_EXTERNAL && 0 < a && from !in st.env.blocked
    ensures Serve(st, c, Request(p, from, a)) == st.(bank := st.bank[p.denom := Credit(Coins(st.bank, p.denom), from, a)])
  {
    hide Credit, Move;
    var m, d := st.env.erc20Module, p.denom;
    var coins := Coins(st.bank, d);
    MintThenMove(coins, m, from, a);
    var b := st.bank[d := Credit(coins, m, a)];
    assert Coins(b, d) == Credit(coins, m, a);
    assert b[d := Credit(coins, from, a)] == st.bank[d := Credit(coins, from, a)];
  }

  lemma OwnMessageDone(st: State, c: Address, from: Address, d: Denom, a: nat)
    requires ValidEnv(st.env) && c in st.tokens && 0 < a <= st.tokens[c][from] && a <= Coins(st.bank, d)[st.env.erc20Module]
    requires from != ZERO_ADDRESS && from !in st.env.blocked
    ensures var m, coins := st.env.erc20Module, Coins(st.bank, d);
            OwnTokenToCoin(st, c, from, from, d, a)
            == Done(WithHoldings(st, d, Move(coins, m, from, a), c, Debit(st.tokens[c], from, a)))
  {
    hide Move, Debit;
  }

  /** What a successful transfer to the module implies. */
  lemma EscrowTransfer(st: State, c: Address, from: Address, a: nat)
    requires TransferToken(st.tokens, c, from, st.env.erc20Module, a).Some?
    ensures var t, m := TransferToken(st.tokens, c, from, st.env.erc20Module, a).value, st.env.erc20Module;
            && c in st.tokens && a <= st.tokens[c][from] && from != ZERO_ADDRESS && a <= |st.tokens[c]|
            && c in t && a <= t[c][m]
            && t[c := Debit(t[c], m, a)] == st.tokens[c := Debit(st.tokens[c], from, a)]
  {
    var h, m := st.tokens[c], st.env.erc20Module;
    assert |Debit(h, from, a)| == |h| - a;
    MoveIsDebitCredit(h, from, m, a);
    hide Move, Debit;
    var t := TransferToken(st.tokens, c, from, m, a).value;
    assert t == st.tokens[c := Move(h, from, m, a)];
  }

  /**
   A module contract: the hook's burn and release, done after the whole transaction, are
   the message's burn and release followed by the rest of the transaction.
   */
  lemma OwnCase(st: State, c: Address, from: Address, a: nat, p: TokenPair, xs: seq<Action>)
    requires Inv(st) && c in st.tokens && Owns(st.registry, c, p.denom) && p.contractOwner == OWNER_MODULE
    requires a > 0 && from !in st.env.blocked
    requires TransferToken(st.tokens, c, from, st.env.erc20Module, a).Some?
    requires forall x :: x in xs ==> Source(x) != st.env.erc20Module
    requires ActAll(TransferToken(st.tokens, c, from, st.env.erc20Module, a).value, xs).Some?
    ensures var t := ActAll(TransferToken(st.tokens, c, from, st.env.erc20Module, a).value, xs).value;
            var o := OwnTokenToCoin(st, c, from, from, p.denom, a);
            && o.Done?
            && ActAll(o.state.tokens, xs).Some?
            && Serve(st.(tokens := t), c, Request(p, from, a)) == o.state.(tokens := ActAll(o.state.tokens, xs).value)
  {
    hide Owns, ActAll, Source, Serve, OwnTokenToCoin, TransferToken, Move, Debit, Coins, Denominated, CoinsNamed, ForeignSolvent,
         Consistent, ContractsIndexed, OwnSolvent;
    var m, d := st.env.erc20Module, p.denom;
    var t1 := TransferToken(st.tokens, c, from, m, a).value;
    EscrowTransfer(st, c, from, a);
    CoveredAlone(st, c, d, NO_DEBTS);
    OwnMessageDone(st, c, from, d, a);
    BurnCommutes(t1, xs, c, m, a);
    ServeOwnDone(st.(tokens := ActAll(t1, xs).value), c, p, from, a);
  }

  /** An external contract: escrowing is the transfer itself; minting touches no token. */
  lemma ForeignCase(st: State, c: Address, from: Address, a: nat, p: TokenPair, t: Tokens)
    requires ValidEnv(st.env) && c in st.tokens && p.contractOwner == OWNER_EXTERNAL
    requires a > 0 && from !in st.env.blocked
    requires TransferToken(st.tokens, c, from, st.env.erc20Module, a).Some?
    ensures var o := ForeignTokenToCoin(st, c, from, from, p.denom, a);
            && o.Done?
            && o.state.tokens == TransferToken(st.tokens, c, from, st.env.erc20Module, a).value
            && Serve(st.(tokens := t), c, Request(p, from, a)) == o.state.(tokens := t)
  {
    ServeForeignDone(st.(tokens := t), c, p, from, a);
    ForeignTokenToCoinClosed(st, c, from, from, p.denom, a);
    hide Credit, Move, ForeignTokenToCoin, Serve, Coins;
  }

  /** The hook serving a converting transfer after the rest of the transaction. */
  lemma ConversionCommutes(st: State, x: Action, xs: seq<Action>)
    requires Inv(st) && st.params.enableErc20 && Fits(st, x) && Converts(st, x)
    requires (forall y :: y in xs ==> MayAct(st, y)) && ActAll(st.tokens, [x] + xs).Some?
    ensures var t, o := ActAll(st.tokens, [x] + xs).value, Direct(st, x);
            && o.Done?
            && ActAll(o.state.tokens, xs).Some?
            && HookStep(st.(tokens := t), LogOf(x)) == o.state.(tokens := ActAll(o.state.tokens, xs).value)
  {
    hide Requested, Serve, OwnTokenToCoin, ForeignTokenToCoin, ConvertERC20, TransferToken, LogOf, Contract, Denominated, CoinsNamed,
         OwnSolvent, ForeignSolvent, ContractsIndexed, HexToAddress, IsHexAddress;
    var c, from, a, p := x.contract, x.from, x.amount, PairOf(st.registry, x.contract);
    assert ([x] + xs)[1..] == xs;
    assert ActAll(st.tokens, [x] + xs) == ActAll(TransferToken(st.tokens, c, from, st.env.erc20Module, a).value, xs);
    var t := ActAll(st.tokens, [x] + xs).value;
    TransferLive(st.tokens, c, from, st.env.erc20Module, a);
    RequestedIffConverts(st, x);
    RequestedSame(st, t, LogOf(x));
    MessageAdmitted(st, c, from, a);
    assert LogOf(x).address == c by { LogAddress(x); }
    if p.contractOwner == OWNER_MODULE {
      OwnsPair(st.registry, c);
      OwnCase(st, c, from, a, p, xs);
    } else {
      ForeignCase(st, c, from, a, p, t);
    }
  }

  lemma TransferLive(t: Tokens, c: Address, from: Address, to: Address, a: nat)
    requires TransferToken(t, c, from, to, a).Some?
    ensures c in t
  {
  }

  lemma LogAddress(x: Action)
    ensures LogOf(x).address == x.contract
  {
  }

  lemma RequestedSame(st: State, t: Tokens, log: Log)
    ensures Requested(st.(tokens := t), log) == Requested(st, log)
  {
  }

  // ----- the theorem --------------------------------------------------------

  /** Fitting depends on the registry and the accounts only. */
  lemma FitsKept(st: State, st': State, xs: seq<Action>)
    requires st'.registry == st.registry && st'.env == st.env
    requires forall x :: x in xs ==> Fits(st, x)
    ensures forall x :: x in xs ==> Fits(st', x)
  {
    hide Registered, PairOf;
  }

  lemma ActKeeps(st: State, x: Action)
    requires Inv(st) && MayAct(st, x) && Act(st.tokens, x).Some?
    ensures Inv(st.(tokens := Act(st.tokens, x).value))
  {
    assert ActAll(st.tokens, [x]) == Some(Act(st.tokens, x).value);
    hide Act, ActAll, MayAct, Harmless, Denominated, CoinsNamed, OwnSolvent, ForeignSolvent, Consistent, ContractsIndexed;
    TransactionHarmless(st, [x]);
    HarmlessKeeps(st, st.(tokens := Act(st.tokens, x).value), NO_DEBTS);
  }

  lemma DirectKeeps(st: State, x: Action)
    requires Inv(st) && st.params.enableErc20 && Fits(st, x) && Direct(st, x).Done? && Act(st.tokens, x).Some?
    ensures var s := Direct(st, x).state;
            Inv(s) && s.registry == st.registry && s.env == st.env && s.params == st.params
  {
    hide Act, MayAct, OwnTokenToCoin, ForeignTokenToCoin, Denominated, CoinsNamed, OwnSolvent, ForeignSolvent, ContractsIndexed,
         HexToAddress, IsHexAddress, Contract, ConvertERC20;
    if Converts(st, x) {
      var p := PairOf(st.registry, x.contract);
      ConvertERC20Keeps(st, x.from, x.from, p.erc20Address, x.amount, NO_DEBTS);
      assert x.contract in st.tokens by { ActLive(st.tokens, x); }
      MessageAdmitted(st, x.contract, x.from, x.amount);
      KeepsRestBack(st, x.contract, x.from, x.from, p.denom, x.amount);
    } else {
      ActKeeps(st, x);
    }
  }

  lemma ActLive(t: Tokens, x: Action)
    requires Act(t, x).Some?
    ensures x.contract in t
  {
  }

  /** All transfers and then the hook, against conversions as they come. */
  lemma {:induction false} HookLoopIsDirect(st: State, xs: seq<Action>)
    requires Inv(st) && st.params.enableErc20 && (forall x :: x in xs ==> Fits(st, x))
    requires ActAll(st.tokens, xs).Some?
    ensures DirectAll(st, xs) == Done(HookLoop(st.(tokens := ActAll(st.tokens, xs).value), LogsOf(xs)))
    decreases |xs|
  {
    hide Requested, Serve, Direct, HookStep, LogOf, Converts, Denominated, CoinsNamed, OwnSolvent, ForeignSolvent, ContractsIndexed,
         Act, MayAct, Fits;
    if xs != [] {
      var x, rest := xs[0], xs[1..];
      assert x in xs && xs == [x] + rest;
      assert forall y :: y in rest ==> y in xs;
      forall y | y in xs
        ensures MayAct(st, y)
      {
        FitsActs(st, y);
      }
      var t := ActAll(st.tokens, xs).value;
      if Converts(st, x) {
        ConversionCommutes(st, x, rest);
      } else {
        PlainStep(st, x, t);
      }
      var s := Direct(st, x).state;
      DirectKeeps(st, x);
      FitsKept(st, s, rest);
      assert LogsOf(xs)[1..] == LogsOf(rest) && LogsOf(xs)[0] == LogOf(x);
      HookLoopIsDirect(s, rest);
    }
  }

  lemma FitsActs(st: State, x: Action)
    requires Fits(st, x)
    ensures MayAct(st, x)
  {
  }

  lemma PlainStep(st: State, x: Action, t: Tokens)
    requires Consistent(st.registry) && Fits(st, x) && !Converts(st, x) && Act(st.tokens, x).Some?
    ensures Direct(st, x) == Done(st.(tokens := Act(st.tokens, x).value))
    ensures HookStep(st.(tokens := t), LogOf(x)) == st.(tokens := t)
  {
    hide Requested, LogOf, Act, Fits, Consistent;
    RequestedIffConverts(st, x);
    RequestedSame(st, t, LogOf(x));
  }

  /**
   Hook refines message: for any transaction whose actions conform, the transaction and
   the hook after it leave the same two ledgers as the transaction in which each transfer
   to the module is a MsgConvertERC20 from and to its sender; in particular every one of
   these messages succeeds, and no release of the hook fails.
   */
  lemma HookRefinesMessage(st: State, xs: seq<Action>)
    requires Inv(st) && st.params.enableErc20 && st.params.enableEVMHook
    requires forall x :: x in xs ==> Fits(st, x)
    requires ActAll(st.tokens, xs).Some?
    ensures DirectAll(st, xs) == Done(EvmTx(st, xs))
  {
    hide HookLoop, DirectAll, ActAll, Fits, Inv;
    HookLoopIsDirect(st, xs);
  }
}
