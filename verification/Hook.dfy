/**
 The post-transaction hook (x/erc20/keeper/evm_hooks.go): converts tokens that a
 transaction sent to the module account, one receipt log after the other.
 Whatever goes wrong, the hook continues and keeps what it has done.
 */
module Hook {
  import opened GoInts
  import opened TokenPairs
  import opened Hex
  import opened PairRegistry
  import opened Ledger
  import opened Bridge

  datatype EventName = TransferEvent | OtherEvent

  /**
   A receipt log: the contract's address, its topics (32-byte words), the event of the
   ERC20 interface that the first topic names, and the number its data unpack to.
   */
  datatype Log = Log(address: Address, topics: seq<seq<byte>>, event: Option<EventName>, amount: Option<int>)

  /** A conversion a log asks for. */
  datatype Request = Request(pair: TokenPair, from: Address, amount: nat)

  /** The guards of the loop body. */
  function Requested(st: State, log: Log): Option<Request>
  {
    if |log.topics| != 3 then None
    else if log.event != Some(TransferEvent) then None
    else if log.amount.None? || log.amount.value <= 0 then None
    else if log.address !in st.registry.byErc20 then None
    else
      match GetTokenPair(st.registry, Some(st.registry.byErc20[log.address]))
      case None => None
      case Some(p) =>
        if BytesToAddress(log.topics[2]) != st.env.erc20Module then None
        else if !p.enabled then None
        else Some(Request(p, BytesToAddress(log.topics[1]), log.amount.value))
  }

  /** SendCoinsFromModuleToAccount, its failure ignored. */
  function Release(st: State, d: Denom, to: Address, a: nat): State
  {
    if to in st.env.blocked then st else
    match SendCoins(st.bank, d, st.env.erc20Module, to, a)
    case None => st
    case Some(b) => st.(bank := b)
  }

  /** The burn or mint and the release for one request. */
  function Serve(st: State, c: Address, q: Request): State
  {
    var m, d := st.env.erc20Module, q.pair.denom;
    if q.pair.contractOwner == OWNER_MODULE then
      match BurnToken(st.tokens, c, m, q.amount)
      case None => st
      case Some(t) => Release(st.(tokens := t), d, q.from, q.amount)
    else if q.pair.contractOwner == OWNER_EXTERNAL then
      match MintCoins(st.bank, d, m, q.amount)
      case None => st
      case Some(b) => Release(st.(bank := b), d, q.from, q.amount)
    else st
  }

  function HookStep(st: State, log: Log): State
  {
    match Requested(st, log)
    case None => st
    case Some(q) => Serve(st, log.address, q)
  }

  function HookLoop(st: State, logs: seq<Log>): State
    decreases |logs|
  {
    if logs == [] then st else HookLoop(HookStep(st, logs[0]), logs[1..])
  }

  /** PostTxProcessing. */
  function PostTxProcessing(st: State, logs: seq<Log>): State
  {
    if !st.params.enableErc20 || !st.params.enableEVMHook then st else HookLoop(st, logs)
  }

  // ----- the transactions that reach the hook -------------------------------

  /** What a transaction may do to token contracts: an approval logs an Approval event, the others a Transfer event. */
  datatype Action =
    | Transfer(contract: Address, from: Address, to: Address, amount: nat)
    | HolderBurn(contract: Address, from: Address, amount: nat)
    | OwnerMint(contract: Address, to: Address, amount: nat)
    | Approval(contract: Address, from: Address, spender: Address, amount: nat)

  function Act(t: Tokens, x: Action): Option<Tokens>
  {
    match x
    case Transfer(c, from, to, a) => TransferToken(t, c, from, to, a)
    case HolderBurn(c, from, a) => BurnToken(t, c, from, a)
    case OwnerMint(c, to, a) => MintToken(t, c, to, a)
    case Approval(c, from, to, _) => if c in t && from != ZERO_ADDRESS && to != ZERO_ADDRESS then Some(t) else None
  }

  /** A transaction takes effect as a whole or not at all. */
  function ActAll(t: Tokens, xs: seq<Action>): Option<Tokens>
    decreases |xs|
  {
    if xs == [] then Some(t) else
    match Act(t, xs[0])
    case None => None
    case Some(t') => ActAll(t', xs[1..])
  }

  const TRANSFER_TOPIC: seq<byte> := [0xdd, 0xf2, 0x52, 0xad]
  const APPROVAL_TOPIC: seq<byte> := [0x8c, 0x5b, 0xe1, 0xe5]

  /** An address as a topic: padded on the left to 32 bytes. */
  function Topic(x: Address): seq<byte>
  {
    [0, 0, 0, 0, 0, 0, 0, 0, 0, 0, 0, 0] + x.bytes
  }

  function Source(x: Action): Address
  {
    if x.OwnerMint? then ZERO_ADDRESS else x.from
  }

  function Target(x: Action): Address
  {
    if x.HolderBurn? then ZERO_ADDRESS else if x.Approval? then x.spender else x.to
  }

  function LogOf(x: Action): Log
  {
    if x.Approval? then
      Log(x.contract, [APPROVAL_TOPIC, Topic(Source(x)), Topic(Target(x))], Some(OtherEvent), Some(x.amount))
    else
      Log(x.contract, [TRANSFER_TOPIC, Topic(Source(x)), Topic(Target(x))], Some(TransferEvent), Some(x.amount))
  }

  function LogsOf(xs: seq<Action>): (logs: seq<Log>)
    decreases |xs|
  {
    if xs == [] then [] else [LogOf(xs[0])] + LogsOf(xs[1..])
  }

  /** A transaction followed by the hook; a transaction that reverts is not followed by it. */
  function EvmTx(st: State, xs: seq<Action>): State
  {
    match ActAll(st.tokens, xs)
    case None => st
    case Some(t) => PostTxProcessing(st.(tokens := t), LogsOf(xs))
  }

  /** An action on the holdings of its contract. */
  ghost function ActOn(h: Holdings, x: Action): Option<Holdings>
  {
    match x
    case Transfer(_, from, to, a) =>
      if a <= h[from] && from != ZERO_ADDRESS && to != ZERO_ADDRESS then Some(Move(h, from, to, a)) else None
    case HolderBurn(_, from, a) =>
      if a <= h[from] && from != ZERO_ADDRESS then Some(Debit(h, from, a)) else None
    case OwnerMint(_, to, a) =>
      if to != ZERO_ADDRESS then Some(Credit(h, to, a)) else None
    case Approval(_, from, to, _) =>
      if from != ZERO_ADDRESS && to != ZERO_ADDRESS then Some(h) else None
  }

  lemma ActIsActOn(t: Tokens, x: Action)
    ensures Act(t, x) == if x.contract in t && ActOn(t[x.contract], x).Some?
                         then Some(t[x.contract := ActOn(t[x.contract], x).value]) else None
  {
    hide Move, Credit, Debit;
    assert x.contract in t ==> t[x.contract := t[x.contract]] == t;
  }

  lemma TopicRoundTrip(x: Address)
    requires |x.bytes| == 20
    ensures BytesToAddress(Topic(x)) == x
  {
    assert Topic(x)[12..] == x.bytes;
  }

  lemma ServeKeepsRest(st: State, c: Address, q: Request)
    ensures var s := Serve(st, c, q);
            s.env == st.env && s.params == st.params && s.registry == st.registry && s.metadata == st.metadata && s.tokens.Keys == st.tokens.Keys
  {
    hide Credit, Debit, Move, Coins;
  }

  // ----- what the hook does, log by log -------------------------------------

  /** A log that asks the hook for a conversion: tokens of an enabled pair's contract arrived at the module account. */
  ghost predicate Asks(st: State, log: Log)
  {
    && |log.topics| == 3
    && log.event == Some(TransferEvent)
    && log.amount.Some? && log.amount.value > 0
    && BytesToAddress(log.topics[2]) == st.env.erc20Module
    && log.address in st.registry.byErc20
    && st.registry.byErc20[log.address] in st.registry.pairs
    && st.registry.pairs[st.registry.byErc20[log.address]].enabled
  }

  /** Any other log, whatever contract and event it is of, changes nothing. */
  lemma OtherLogsIgnored(st: State, log: Log)
    requires !Asks(st, log)
    ensures HookStep(st, log) == st
  {
    hide BytesToAddress, Serve;
  }

  /**
   What becomes of a log that asks.  Tokens of a module contract are burnt, if the module holds
   them, and as many coins released, if the sender may receive and the escrow has them; for
   those of an external contract coins are minted, to the sender or, if it may not receive,
   to the module.
   */
  lemma AskedFor(st: State, log: Log)
    requires Asks(st, log) && st.env.erc20Module != ZERO_ADDRESS
    ensures var p, c, m := st.registry.pairs[st.registry.byErc20[log.address]], log.address, st.env.erc20Module;
            var a, from, d := log.amount.value, BytesToAddress(log.topics[1]), p.denom;
            HookStep(st, log) ==
              if p.contractOwner == OWNER_MODULE && c in st.tokens && a <= st.tokens[c][m] then
                var burnt := st.(tokens := st.tokens[c := st.tokens[c][m := st.tokens[c][m] - a]]);
                if from !in st.env.blocked && a <= Coins(st.bank, d)[m] then
                  burnt.(bank := st.bank[d := Move(Coins(st.bank, d), m, from, a)])
                else burnt
              else if p.contractOwner == OWNER_EXTERNAL then
                st.(bank := st.bank[d := Credit(Coins(st.bank, d), if from in st.env.blocked then m else from, a)])
              else st
  {
    hide BytesToAddress, Serve, Credit, Move, Coins;
    var p := st.registry.pairs[st.registry.byErc20[log.address]];
    var q := Request(p, BytesToAddress(log.topics[1]), log.amount.value);
    assert Requested(st, log) == Some(q);
    if p.contractOwner == OWNER_MODULE {
      ServedOwn(st, log.address, q);
    } else if p.contractOwner == OWNER_EXTERNAL {
      ServedForeign(st, log.address, q);
    } else {
      ServedNot(st, log.address, q);
    }
  }

  lemma ServedOwn(st: State, c: Address, q: Request)
    requires q.pair.contractOwner == OWNER_MODULE && q.amount > 0 && st.env.erc20Module != ZERO_ADDRESS
    ensures var m, a, d := st.env.erc20Module, q.amount, q.pair.denom;
            Serve(st, c, q) ==
              if c in st.tokens && a <= st.tokens[c][m] then
                var burnt := st.(tokens := st.tokens[c := st.tokens[c][m := st.tokens[c][m] - a]]);
                if q.from !in st.env.blocked && a <= Coins(st.bank, d)[m] then
                  burnt.(bank := st.bank[d := Move(Coins(st.bank, d), m, q.from, a)])
                else burnt
              else st
  {
    hide Credit, Move, Coins;
  }

  lemma ServedForeign(st: State, c: Address, q: Request)
    requires q.pair.contractOwner == OWNER_EXTERNAL && q.amount > 0
    ensures var m, a, d := st.env.erc20Module, q.amount, q.pair.denom;
            Serve(st, c, q) == st.(bank := st.bank[d := Credit(Coins(st.bank, d), if q.from in st.env.blocked then m else q.from, a)])
  {
    hide Credit, Move, Release;
    MintedAndReleased(st, q.pair.denom, q.from, q.amount);
  }

  lemma ServedNot(st: State, c: Address, q: Request)
    requires q.pair.contractOwner != OWNER_MODULE && q.pair.contractOwner != OWNER_EXTERNAL
    ensures Serve(st, c, q) == st
  {
  }

  /** Coins minted to the module and released are coins credited to the account. */
  lemma MintedAndReleased(st: State, d: Denom, to: Address, a: nat)
    requires a > 0
    ensures var m, coins := st.env.erc20Module, Coins(st.bank, d);
            Release(st.(bank := st.bank[d := Credit(coins, m, a)]), d, to, a)
            == st.(bank := st.bank[d := Credit(coins, if to in st.env.blocked then m else to, a)])
  {
    hide Credit, Move;
    var m, coins := st.env.erc20Module, Coins(st.bank, d);
    MintThenMove(coins, m, to, a);
    var b := st.bank[d := Credit(coins, m, a)];
    assert b[d := Credit(coins, to, a)] == st.bank[d := Credit(coins, to, a)];
  }

  /** With either switch off, transactions move tokens and nothing else happens. */
  lemma SwitchedOff(st: State, xs: seq<Action>)
    requires !st.params.enableErc20 || !st.params.enableEVMHook
    ensures EvmTx(st, xs) == if ActAll(st.tokens, xs).Some? then st.(tokens := ActAll(st.tokens, xs).value) else st
  {
  }

  /** With both switches on, the receipt's logs are served one after the other, none left out. */
  lemma ServedInOrder(st: State, logs: seq<Log>, log: Log)
    requires st.params.enableErc20 && st.params.enableEVMHook
    ensures PostTxProcessing(st, []) == st
    ensures PostTxProcessing(st, logs + [log]) == HookStep(PostTxProcessing(st, logs), log)
  {
    hide HookStep;
    LoopAppend(st, logs, log);
  }

  lemma {:induction false} LoopAppend(st: State, logs: seq<Log>, log: Log)
    ensures HookLoop(st, logs + [log]) == HookStep(HookLoop(st, logs), log)
    decreases |logs|
  {
    hide HookStep;
    if logs == [] {
      assert HookLoop(HookStep(st, log), []) == HookStep(st, log);
      assert (logs + [log])[1..] == [];
    } else {
      assert (logs + [log])[1..] == logs[1..] + [log];
      LoopAppend(HookStep(st, logs[0]), logs[1..], log);
    }
  }
}
