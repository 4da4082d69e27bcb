/** EVM transactions and the hook after them keep the solvency invariant, failed releases included. */
module SolvencyHook {
  import opened TokenPairs
  import opened Hex
  import opened PairRegistry
  import opened Ledger
  import opened Bridge
  import opened BridgeLaws
  import opened Proposals
  import opened Hook
  import opened Chain
  import opened Solvency
  import opened SolvencySteps

  // ----- what logs ask for --------------------------------------------------

  /** What a log says contract `c` sent to account `m`. */
  ghost function Announced(m: Address, log: Log, c: Address): nat
  {
    if && log.address == c && |log.topics| == 3 && BytesToAddress(log.topics[2]) == m
       && log.event == Some(TransferEvent) && log.amount.Some? && log.amount.value > 0
    then log.amount.value else 0
  }

  ghost function Pending(m: Address, logs: seq<Log>, c: Address): nat
    decreases |logs|
  {
    if logs == [] then 0 else Announced(m, logs[0], c) + Pending(m, logs[1..], c)
  }

  /** The invariant between two rounds of the hook: the escrow also covers the logs to come. */
  ghost predicate InvWith(st: State, logs: seq<Log>, w: Debts)
  {
    Sound(st, w) && forall c :: Foreign(st, c) ==> Gap(st, c) + Due(w.tokens, c) >= Pending(st.env.erc20Module, logs, c)
  }

  // ----- the transaction ----------------------------------------------------

  lemma AnnouncedByAction(m: Address, x: Action, c: Address)
    requires |Target(x).bytes| == 20
    ensures Announced(m, LogOf(x), c) == if x.contract == c && Target(x) == m && !x.Approval? then x.amount else 0
  {
    hide BytesToAddress, Topic;
    TopicRoundTrip(Target(x));
  }

  lemma ActOnEffect(h: Holdings, x: Action, m: Address)
    requires Source(x) != m && m != ZERO_ADDRESS && ActOn(h, x).Some?
    ensures ActOn(h, x).value[m] >= h[m] + (if Target(x) == m && !x.Approval? then x.amount else 0)
    ensures !x.OwnerMint? ==> |ActOn(h, x).value| <= |h|
  {
  }

  /** An action brings the module at least what its log announces, and grows no module contract. */
  lemma ActEffect(st: State, t: Tokens, x: Action, c: Address)
    requires ValidEnv(st.env) && MayAct(st, x) && Act(t, x).Some? && c in t
    ensures var t', m := Act(t, x).value, st.env.erc20Module;
            && t'.Keys == t.Keys
            && t'[c][m] >= t[c][m] + Announced(m, LogOf(x), c)
            && (Registered(st.registry, c, OWNER_MODULE) ==> |t'[c]| <= |t[c]|)
  {
    hide Act, ActOn, Announced, LogOf, Registered, Source, Target;
    ActIsActOn(t, x);
    AnnouncedByAction(st.env.erc20Module, x, c);
    if x.contract == c {
      ActOnEffect(t[c], x, st.env.erc20Module);
    }
  }

  lemma {:induction false} ActAllEffect(st: State, t: Tokens, xs: seq<Action>, c: Address)
    requires ValidEnv(st.env) && (forall x :: x in xs ==> MayAct(st, x)) && ActAll(t, xs).Some? && c in t
    ensures var t', m := ActAll(t, xs).value, st.env.erc20Module;
            && t'.Keys == t.Keys
            && t'[c][m] >= t[c][m] + Pending(m, LogsOf(xs), c)
            && (Registered(st.registry, c, OWNER_MODULE) ==> |t'[c]| <= |t[c]|)
    decreases |xs|
  {
    hide MayAct, Act, LogOf, Announced, Registered;
    if xs != [] {
      assert xs[0] in xs;
      ActEffect(st, t, xs[0], c);
      ActAllEffect(st, Act(t, xs[0]).value, xs[1..], c);
      assert LogsOf(xs)[1..] == LogsOf(xs[1..]);
    }
  }

  lemma ActAllKeys(t: Tokens, xs: seq<Action>)
    requires ActAll(t, xs).Some?
    ensures ActAll(t, xs).value.Keys == t.Keys
    decreases |xs|
  {
    if xs != [] {
      ActAllKeys(Act(t, xs[0]).value, xs[1..]);
    }
  }

  lemma TransactionHarmless(st: State, xs: seq<Action>)
    requires ValidEnv(st.env) && (forall x :: x in xs ==> MayAct(st, x)) && ActAll(st.tokens, xs).Some?
    ensures Harmless(st, st.(tokens := ActAll(st.tokens, xs).value))
  {
    hide MayAct, ActAll, Registered, IsErc20Denom, IsHexAddress, Pending;
    ActAllKeys(st.tokens, xs);
    forall c | c in st.tokens
      ensures var t', m := ActAll(st.tokens, xs).value, st.env.erc20Module;
              t'[c][m] >= st.tokens[c][m] && (Registered(st.registry, c, OWNER_MODULE) ==> |t'[c]| <= |st.tokens[c]|)
    {
      ActAllEffect(st, st.tokens, xs, c);
    }
  }

  lemma TransactionInvWith(st: State, xs: seq<Action>, w: Debts)
    requires InvUpTo(st, w) && (forall x :: x in xs ==> MayAct(st, x)) && ActAll(st.tokens, xs).Some?
    ensures InvWith(st.(tokens := ActAll(st.tokens, xs).value), LogsOf(xs), w)
  {
    hide MayAct, ActAll, Harmless, Pending, Consistent, ContractsIndexed, Denominated, CoinsNamed, OwnSolvent, ValidEnv;
    var st' := st.(tokens := ActAll(st.tokens, xs).value);
    TransactionHarmless(st, xs);
    HarmlessSound(st, st', w);
    ActAllKeys(st.tokens, xs);
    forall c | Foreign(st', c)
      ensures Gap(st', c) + Due(w.tokens, c) >= Pending(st.env.erc20Module, LogsOf(xs), c)
    {
      ActAllEffect(st, st.tokens, xs, c);
      assert Foreign(st, c) && Gap(st, c) + Due(w.tokens, c) >= 0;
    }
  }

  // ----- one round of the hook ----------------------------------------------

  lemma RequestedPair(st: State, log: Log)
    requires Consistent(st.registry) && Requested(st, log).Some?
    ensures var q := Requested(st, log).value;
            && log.address in st.registry.byErc20
            && st.registry.byErc20[log.address] in st.registry.pairs
            && st.registry.pairs[st.registry.byErc20[log.address]] == q.pair
            && q.amount > 0
            && q.amount == Announced(st.env.erc20Module, log, log.address)
  {
    hide BytesToAddress, HexToAddress, IsHexAddress;
  }

  /** Burning and releasing is what the message does for the module account; a failed release only adds slack. */
  lemma ServeOwn(st: State, c: Address, q: Request)
    requires ValidEnv(st.env) && c in st.tokens && q.amount > 0 && q.pair.contractOwner == OWNER_MODULE
    ensures var o := OwnTokenToCoin(st, c, st.env.erc20Module, q.from, q.pair.denom, q.amount);
            || Serve(st, c, q) == st
            || (o.Done? && Serve(st, c, q) == o.state)
            || (q.amount <= st.tokens[c][st.env.erc20Module]
                && Serve(st, c, q) == st.(tokens := st.tokens[c := Debit(st.tokens[c], st.env.erc20Module, q.amount)]))
  {
  }

  lemma BurnHarmless(st: State, c: Address, a: nat)
    requires c in st.tokens && Registered(st.registry, c, OWNER_MODULE) && a <= st.tokens[c][st.env.erc20Module]
    ensures Harmless(st, st.(tokens := st.tokens[c := Debit(st.tokens[c], st.env.erc20Module, a)]))
  {
    hide IsErc20Denom, IsHexAddress;
  }

  /** No external token's escrow loses ground. */
  ghost predicate NoGapShrinks(st: State, st': State)
  {
    forall k :: Foreign(st', k) ==> Foreign(st, k) && Gap(st', k) >= Gap(st, k)
  }

  lemma ReleaseKeeps(st: State, c: Address, to: Address, d: Denom, a: nat, w: Debts)
    requires Sound(st, w) && c in st.tokens && Owns(st.registry, c, d)
    requires OwnTokenToCoin(st, c, st.env.erc20Module, to, d, a).Done?
    ensures var st' := OwnTokenToCoin(st, c, st.env.erc20Module, to, d, a).state; Sound(st', w) && NoGapShrinks(st, st')
  {
    hide Sound, Owns, Gap, Foreign;
    var m := st.env.erc20Module;
    var coins, held := Move(Coins(st.bank, d), m, to, a), Debit(st.tokens[c], m, a);
    OwnConversionSound(st, d, coins, c, held, w);
    forall k | Foreign(WithHoldings(st, d, coins, c, held), k)
      ensures Foreign(st, k) && Gap(WithHoldings(st, d, coins, c, held), k) >= Gap(st, k)
    {
      OwnConversionGap(st, d, coins, c, held, k);
    }
  }

  lemma BurnKeeps(st: State, c: Address, d: Denom, a: nat, w: Debts)
    requires Sound(st, w) && c in st.tokens && Owns(st.registry, c, d) && a <= st.tokens[c][st.env.erc20Module]
    ensures var st' := st.(tokens := st.tokens[c := Debit(st.tokens[c], st.env.erc20Module, a)]);
            Sound(st', w) && NoGapShrinks(st, st')
  {
    hide Sound, Owns, Gap, Foreign, Harmless;
    var st' := st.(tokens := st.tokens[c := Debit(st.tokens[c], st.env.erc20Module, a)]);
    OwnsRegistered(st.registry, c, d);
    BurnHarmless(st, c, a);
    HarmlessSound(st, st', w);
    forall k | Foreign(st', k)
      ensures Foreign(st, k) && Gap(st', k) >= Gap(st, k)
    {
      HarmlessGap(st, st', k, w);
    }
  }

  lemma ServeOwnKeeps(st: State, c: Address, q: Request, w: Debts)
    requires Sound(st, w) && c in st.tokens && Owns(st.registry, c, q.pair.denom) && q.amount > 0
    requires q.pair.contractOwner == OWNER_MODULE
    ensures Sound(Serve(st, c, q), w) && NoGapShrinks(st, Serve(st, c, q))
  {
    hide Serve, Owns, OwnTokenToCoin, Consistent, ContractsIndexed, Denominated, CoinsNamed, OwnSolvent, Gap, Foreign;
    ServeOwn(st, c, q);
    var m, d, a := st.env.erc20Module, q.pair.denom, q.amount;
    if OwnTokenToCoin(st, c, m, q.from, d, a).Done? {
      ReleaseKeeps(st, c, q.from, d, a, w);
    }
    if a <= st.tokens[c][m] {
      BurnKeeps(st, c, d, a, w);
    }
  }

  lemma OwnsRegistered(r: Registry, c: Address, d: Denom)
    requires Owns(r, c, d)
    ensures Registered(r, c, OWNER_MODULE)
  {
  }

  /** Holdings after minting to the module and, unless the account is blocked, moving on to it. */
  ghost function MintedFor(h: Holdings, m: Address, to: Address, blocked: bool, a: nat): (r: Holdings)
    ensures |r| == |h| + a && r[m] >= h[m]
  {
    var minted := Credit(h, m, a);
    if blocked then minted else Move(minted, m, to, a)
  }

  /** Minting and releasing raises the coin's supply by the amount, wherever the coins end up. */
  lemma ServeForeign(st: State, c: Address, q: Request)
    requires c in st.tokens && q.amount > 0 && q.pair.contractOwner == OWNER_EXTERNAL
    ensures var d := q.pair.denom;
            Serve(st, c, q)
            == WithHoldings(st, d, MintedFor(Coins(st.bank, d), st.env.erc20Module, q.from, q.from in st.env.blocked, q.amount), c, st.tokens[c])
  {
    var m, d, a := st.env.erc20Module, q.pair.denom, q.amount;
    var minted := Credit(Coins(st.bank, d), m, a);
    TokenCredited(Coins(st.bank, d), m, a);
    hide Credit, Move;
    var st1 := st.(bank := st.bank[d := minted]);
    assert Serve(st, c, q) == Release(st1, d, q.from, a);
    hide Serve;
    assert st.tokens[c := st.tokens[c]] == st.tokens;
    if q.from !in st.env.blocked {
      var coins := Move(minted, m, q.from, a);
      assert st1.bank[d := coins] == st.bank[d := coins];
    }
  }

  lemma ServeForeignKeeps(st: State, c: Address, q: Request, w: Debts)
    requires Sound(st, w) && Foreign(st, c) && CoinOf(st.registry, c) == q.pair.denom && q.amount > 0
    requires q.pair.contractOwner == OWNER_EXTERNAL
    ensures Sound(Serve(st, c, q), w)
    ensures forall k :: Foreign(Serve(st, c, q), k) ==>
              Foreign(st, k) && Gap(Serve(st, c, q), k) == Gap(st, k) - (if k == c then q.amount else 0)
  {
    hide Serve, MintedFor, Consistent, ContractsIndexed, Denominated, CoinsNamed, OwnSolvent;
    var d := q.pair.denom;
    ServeForeign(st, c, q);
    var coins := MintedFor(Coins(st.bank, d), st.env.erc20Module, q.from, q.from in st.env.blocked, q.amount);
    ForeignConversionSound(st, d, coins, c, st.tokens[c], w);
    forall k | Foreign(Serve(st, c, q), k)
      ensures Foreign(st, k) && Gap(Serve(st, c, q), k) == Gap(st, k) - (if k == c then q.amount else 0)
    {
      ForeignConversionGap(st, d, coins, c, st.tokens[c], k, w);
    }
  }

  /** One round of the hook uses up the log it is about. */
  lemma HookStepKeeps(st: State, logs: seq<Log>, w: Debts)
    requires logs != [] && InvWith(st, logs, w)
    requires forall log :: log in logs ==> log.address in st.tokens
    ensures InvWith(HookStep(st, logs[0]), logs[1..], w)
    ensures HookStep(st, logs[0]).tokens.Keys == st.tokens.Keys
  {
    hide Serve, Requested, Announced, Owns, Consistent, ContractsIndexed, Denominated, CoinsNamed, OwnSolvent, Gap, HexToAddress;
    var log := logs[0];
    assert log in logs;
    if Requested(st, log).Some? {
      var q, c := Requested(st, log).value, log.address;
      RequestedPair(st, log);
      ServeKeepsRest(st, c, q);
      if q.pair.contractOwner == OWNER_MODULE {
        assert Owns(st.registry, c, q.pair.denom) by { OwnsPair(st.registry, c); }
        ServeOwnKeeps(st, c, q, w);
      } else if q.pair.contractOwner == OWNER_EXTERNAL {
        ServeForeignKeeps(st, c, q, w);
      } else {
        ServedNot(st, c, q);
      }
    }
  }

  lemma OwnsPair(r: Registry, c: Address)
    requires Registered(r, c, OWNER_MODULE)
    ensures Owns(r, c, r.pairs[r.byErc20[c]].denom)
  {
  }

  lemma {:induction false} HookLoopKeeps(st: State, logs: seq<Log>, w: Debts)
    requires InvWith(st, logs, w)
    requires forall log :: log in logs ==> log.address in st.tokens
    ensures InvUpTo(HookLoop(st, logs), w)
    decreases |logs|
  {
    hide HookStep, Sound, Gap, Announced;
    if logs != [] {
      HookStepKeeps(st, logs, w);
      HookLoopKeeps(HookStep(st, logs[0]), logs[1..], w);
    }
  }

  lemma {:induction false} LoggedContractsLive(t: Tokens, xs: seq<Action>)
    requires ActAll(t, xs).Some?
    ensures forall log :: log in LogsOf(xs) ==> log.address in t
    decreases |xs|
  {
    hide Topic;
    if xs != [] {
      var t' := Act(t, xs[0]).value;
      assert t'.Keys == t.Keys;
      LoggedContractsLive(t', xs[1..]);
    }
  }

  /** A transaction of any length and the hook after it keep both escrows sufficient. */
  lemma EvmTxKeeps(st: State, xs: seq<Action>, w: Debts)
    requires InvUpTo(st, w) && forall x :: x in xs ==> MayAct(st, x)
    ensures InvUpTo(EvmTx(st, xs), w)
  {
    hide Gap, MayAct, ActAll, HookLoop, Harmless, Consistent, ContractsIndexed, Denominated, CoinsNamed, OwnSolvent, ValidEnv;
    if ActAll(st.tokens, xs).Some? {
      var t := ActAll(st.tokens, xs).value;
      var st' := st.(tokens := t);
      TransactionHarmless(st, xs);
      HarmlessKeeps(st, st', w);
      TransactionInvWith(st, xs, w);
      LoggedContractsLive(st.tokens, xs);
      ActAllKeys(st.tokens, xs);
      HookLoopKeeps(st', LogsOf(xs), w);
    }
  }
}
