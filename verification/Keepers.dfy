/**
 The handlers as the keeper runs them: one write after the other, with balances read
 before and after (x/erc20/keeper/msg_server.go, evm_hooks.go, proposals.go).
 Each is proved to have the atomic effect stated for it in modules `Bridge`, `Hook`
 and `Proposals`.
 */
module Keepers {
  import opened TokenPairs
  import opened Hex
  import opened PairRegistry
  import L = Ledger
  import opened BasisPoints
  import B = Bridge
  import H = Hook
  import P = Proposals
  import Chain

  class Keeper {
    const env: B.Env
    var params: B.Params
    var registry: Registry
    var bank: L.Bank
    var tokens: L.Tokens
    var metadata: map<L.Denom, B.Metadata>

    ghost function Snapshot(): B.State
      reads this
    {
      B.State(env, params, registry, bank, tokens, metadata)
    }

    constructor (s: B.State)
      ensures Snapshot() == s
    {
      env, params, registry := s.env, s.params, s.registry;
      bank, tokens, metadata := s.bank, s.tokens, s.metadata;
    }

    // ----- the bank and the EVM as the keeper calls them ----------------------

    method SendCoins(d: L.Denom, from: Address, to: Address, a: nat) returns (ok: bool)
      modifies this`bank
      ensures ok == L.SendCoins(old(bank), d, from, to, a).Some?
      ensures bank == if ok then L.SendCoins(old(bank), d, from, to, a).value else old(bank)
    {
      var b := L.SendCoins(bank, d, from, to, a);
      ok := b.Some?;
      if ok { bank := b.value; }
    }

    method SendCoinsFromModuleToAccount(d: L.Denom, to: Address, a: nat) returns (ok: bool)
      modifies this`bank
      ensures ok == (to !in env.blocked && L.SendCoins(old(bank), d, env.erc20Module, to, a).Some?)
      ensures bank == if ok then L.SendCoins(old(bank), d, env.erc20Module, to, a).value else old(bank)
    {
      if to in env.blocked {
        return false;
      }
      ok := SendCoins(d, env.erc20Module, to, a);
    }

    method MintCoins(d: L.Denom, a: nat) returns (ok: bool)
      modifies this`bank
      ensures ok == L.MintCoins(old(bank), d, env.erc20Module, a).Some?
      ensures bank == if ok then L.MintCoins(old(bank), d, env.erc20Module, a).value else old(bank)
    {
      var b := L.MintCoins(bank, d, env.erc20Module, a);
      ok := b.Some?;
      if ok { bank := b.value; }
    }

    method BurnCoins(d: L.Denom, a: nat) returns (ok: bool)
      modifies this`bank
      ensures ok == L.BurnCoins(old(bank), d, env.erc20Module, a).Some?
      ensures bank == if ok then L.BurnCoins(old(bank), d, env.erc20Module, a).value else old(bank)
    {
      var b := L.BurnCoins(bank, d, env.erc20Module, a);
      ok := b.Some?;
      if ok { bank := b.value; }
    }

    method BalanceOf(c: Address, x: Address) returns (balance: Option<nat>)
      ensures balance == if c in tokens then Some(tokens[c][x]) else None
    {
      balance := if c in tokens then Some(tokens[c][x]) else None;
    }

    /** Commits what a call left of the token contracts. */
    method CallEVM(t: Option<L.Tokens>) returns (ok: bool)
      modifies this`tokens
      ensures ok == t.Some? && tokens == if ok then t.value else old(tokens)
    {
      ok := t.Some?;
      if ok { tokens := t.value; }
    }

    // ----- conversions --------------------------------------------------------

    /** The bank once the coins to convert are in escrow, if they can be taken at all. */
    ghost function Escrowed(b: L.Bank, d: L.Denom, sender: Address, a: nat): L.Bank
    {
      match L.SendCoins(b, d, sender, env.erc20Module, a)
      case None => b
      case Some(b') => b'
    }

    method ConvertCoinNativeCoin(c: Address, sender: Address, receiver: Address, d: L.Denom, a: nat) returns (ok: bool)
      requires c in tokens
      modifies this`bank, this`tokens
      ensures ok == B.CoinToOwnToken(old(Snapshot()), c, sender, receiver, d, a).Done?
      ensures ok ==> Snapshot() == B.CoinToOwnToken(old(Snapshot()), c, sender, receiver, d, a).state
      ensures !ok ==> Snapshot() == old(Snapshot()).(bank := Escrowed(old(bank), d, sender, a))
    {
      var before := BalanceOf(c, receiver);
      if before.None? {
        return false;
      }
      ok := SendCoins(d, sender, env.erc20Module, a);
      if !ok {
        return;
      }
      ok := CallEVM(L.MintToken(tokens, c, receiver, a));
      if !ok {
        return;
      }
      var after := BalanceOf(c, receiver);
      if after.None? || after.value != before.value + a {
        return false;
      }
    }

    method ConvertERC20NativeCoin(c: Address, sender: Address, receiver: Address, d: L.Denom, a: nat) returns (ok: bool)
      requires c in tokens
      modifies this`bank, this`tokens
      ensures ok == B.OwnTokenToCoin(old(Snapshot()), c, sender, receiver, d, a).Done?
      ensures ok ==> Snapshot() == B.OwnTokenToCoin(old(Snapshot()), c, sender, receiver, d, a).state
    {
      var coin := L.Coins(bank, d)[receiver];
      var before := BalanceOf(c, sender);
      if before.None? {
        return false;
      }
      ok := CallEVM(L.BurnToken(tokens, c, sender, a));
      if !ok {
        return;
      }
      ok := SendCoinsFromModuleToAccount(d, receiver, a);
      if !ok {
        return;
      }
      if L.Coins(bank, d)[receiver] != coin + a {
        return false;
      }
      var after := BalanceOf(c, sender);
      if after.None? || after.value != before.value - a {
        return false;
      }
    }

    /**
     `call` is what the contract made of the transfer to the module account, be it what it may.
     Success leaves the module's tokens less the coin's supply as they were.
     */
    method ConvertERC20NativeToken(c: Address, receiver: Address, d: L.Denom, a: nat, call: B.EvmCall) returns (ok: bool)
      requires c in tokens
      modifies this`bank, this`tokens
      ensures ok == B.ForeignTokenToCoinWith(old(Snapshot()), c, receiver, d, a, call).Done?
      ensures ok ==> Snapshot() == B.ForeignTokenToCoinWith(old(Snapshot()), c, receiver, d, a, call).state
      ensures ok <==>
                && call.Returned? && call.value && !call.approvalLogged
                && c in call.tokens && call.tokens[c][env.erc20Module] == old(tokens)[c][env.erc20Module] + a
                && a > 0 && receiver !in env.blocked
      ensures ok ==>
                && a > 0 && c in tokens
                && tokens[c][env.erc20Module] - L.Supply(bank, d) == old(tokens[c][env.erc20Module] - L.Supply(bank, d))
                && L.Coins(bank, d)[receiver] == old(L.Coins(bank, d)[receiver]) + a
                && forall e :: e != d ==> L.Coins(bank, e) == old(L.Coins(bank, e))
    {
      hide L.Credit, L.Move, L.SendCoins, L.Coins, L.Supply;
      Credited(bank, d, receiver, a);
      var coin := L.Coins(bank, d)[receiver];
      var before := BalanceOf(c, env.erc20Module);
      if before.None? {
        return false;
      }
      if call.Reverted? {
        return false;
      }
      tokens := call.tokens;
      if !call.value {
        return false;
      }
      var after := BalanceOf(c, env.erc20Module);
      if after.None? || after.value != before.value + a {
        return false;
      }
      ok := MintCoins(d, a);
      if !ok {
        return;
      }
      MintThenSend(old(bank), d, receiver, a);
      ok := SendCoinsFromModuleToAccount(d, receiver, a);
      if !ok {
        return;
      }
      if L.Coins(bank, d)[receiver] != coin + a {
        return false;
      }
      if call.approvalLogged {
        return false;
      }
    }

    /** What the bank shows of coins credited. */
    lemma Credited(b: L.Bank, d: L.Denom, to: Address, a: nat)
      ensures var b' := b[d := L.Credit(L.Coins(b, d), to, a)];
              && L.Coins(b', d)[to] == L.Coins(b, d)[to] + a
              && L.Supply(b', d) == L.Supply(b, d) + a
              && forall e :: e != d ==> L.Coins(b', e) == L.Coins(b, e)
    {
    }

    /** Coins minted and sent on are coins credited, unless they come back to the module. */
    lemma MintThenSend(b: L.Bank, d: L.Denom, to: Address, a: nat)
      requires a > 0
      ensures var b1 := L.MintCoins(b, d, env.erc20Module, a).value;
              var b2 := L.SendCoins(b1, d, env.erc20Module, to, a);
              && b2 == Some(b[d := L.Credit(L.Coins(b, d), to, a)])
              && L.Coins(b2.value, d)[to] == L.Coins(b, d)[to] + a
    {
      hide L.Credit, L.Move;
      var m, coins := env.erc20Module, L.Coins(b, d);
      L.MintThenMove(coins, m, to, a);
      L.TokenCredited(coins, to, a);
      var b1 := b[d := L.Credit(coins, m, a)];
      assert b1[d := L.Credit(coins, to, a)] == b[d := L.Credit(coins, to, a)];
    }

    method ConvertCoinNativeERC20(c: Address, sender: Address, receiver: Address, d: L.Denom, a: nat) returns (ok: bool)
      requires c in tokens
      modifies this`bank, this`tokens
      ensures ok == B.CoinToForeignToken(old(Snapshot()), c, sender, receiver, d, a).Done?
      ensures ok ==> Snapshot() == B.CoinToForeignToken(old(Snapshot()), c, sender, receiver, d, a).state
      ensures !ok && receiver != env.erc20Module ==> Snapshot() == old(Snapshot()).(bank := Escrowed(old(bank), d, sender, a))
    {
      hide L.Move, L.Debit, L.BurnCoins;
      var before := BalanceOf(c, receiver);
      if before.None? {
        return false;
      }
      ok := SendCoins(d, sender, env.erc20Module, a);
      if !ok {
        return;
      }
      ok := CallEVM(L.TransferToken(tokens, c, env.erc20Module, receiver, a));
      if !ok {
        return;
      }
      L.MovedBalance(old(tokens)[c], env.erc20Module, receiver, a);
      var after := BalanceOf(c, receiver);
      if after.None? || after.value != before.value + a {
        return false;
      }
      EscrowThenBurn(old(bank), d, sender, a);
      ok := BurnCoins(d, a);
    }

    lemma EscrowThenBurn(b: L.Bank, d: L.Denom, from: Address, a: nat)
      requires 0 < a <= L.Coins(b, d)[from]
      ensures var b1 := L.SendCoins(b, d, from, env.erc20Module, a).value;
              L.BurnCoins(b1, d, env.erc20Module, a) == Some(b[d := L.Debit(L.Coins(b, d), from, a)])
    {
      hide L.Debit, L.Move;
      var coins, m := L.Coins(b, d), env.erc20Module;
      L.MoveIsDebitCredit(coins, from, m, a);
      var b1 := b[d := L.Move(coins, from, m, a)];
      assert b1[d := L.Debit(coins, from, a)] == b[d := L.Debit(coins, from, a)];
    }

    // ----- messages -----------------------------------------------------------

    method MintingEnabled(sender: Address, receiver: Address, token: GoString) returns (p: Option<TokenPair>)
      ensures p == B.MintingEnabled(Snapshot(), sender, receiver, token)
      ensures p.Some? ==> receiver !in env.blocked
    {
      if !params.enableErc20 {
        return None;
      }
      var id := GetTokenPairID(registry, token);
      if id.None? {
        return None;
      }
      var pair := GetTokenPair(registry, id);
      if pair.None? || !pair.value.enabled || receiver in env.blocked {
        return None;
      }
      if sender != receiver && pair.value.denom in params.sendDisabled {
        return None;
      }
      return pair;
    }

    /** Handler of MsgConvertCoin; a failing run may leave writes behind. */
    method ConvertCoin(sender: Address, receiver: Address, d: L.Denom, a: nat) returns (ok: bool)
      modifies this`bank, this`tokens, this`registry
      ensures ok == B.ConvertCoin(old(Snapshot()), sender, receiver, d, a).Done?
      ensures ok ==> Snapshot() == B.ConvertCoin(old(Snapshot()), sender, receiver, d, a).state
      ensures env.erc20Module in env.blocked ==>
                Snapshot() == B.ConvertCoinUnreverted(old(Snapshot()), sender, receiver, d, a)
    {
      hide B.MintingEnabled, B.CoinToOwnToken, B.CoinToForeignToken, Contract, DeleteTokenPair;
      var pair := MintingEnabled(sender, receiver, d);
      if pair.None? {
        return false;
      }
      var p := pair.value;
      var c := Contract(p);
      if c !in tokens {
        registry := DeleteTokenPair(registry, p);
        return true;
      }
      if p.contractOwner == OWNER_MODULE {
        ok := ConvertCoinNativeCoin(c, sender, receiver, d, a);
      } else if p.contractOwner == OWNER_EXTERNAL {
        ok := ConvertCoinNativeERC20(c, sender, receiver, d, a);
      } else {
        ok := false;
      }
    }

    /** Handler of MsgConvertERC20; external contracts conform to EIP-20. */
    method ConvertERC20(sender: Address, receiver: Address, token: GoString, a: nat) returns (ok: bool)
      modifies this`bank, this`tokens, this`registry
      ensures ok == B.ConvertERC20(old(Snapshot()), sender, receiver, token, a).Done?
      ensures ok ==> Snapshot() == B.ConvertERC20(old(Snapshot()), sender, receiver, token, a).state
    {
      hide B.MintingEnabled, B.OwnTokenToCoin, B.ForeignTokenToCoinWith, Contract, DeleteTokenPair, B.ConformingTransfer;
      var pair := MintingEnabled(sender, receiver, token);
      if pair.None? {
        return false;
      }
      var p := pair.value;
      var c := Contract(p);
      if c !in tokens {
        registry := DeleteTokenPair(registry, p);
        return true;
      }
      if p.contractOwner == OWNER_MODULE {
        ok := ConvertERC20NativeCoin(c, sender, receiver, p.denom, a);
      } else if p.contractOwner == OWNER_EXTERNAL {
        var call := B.ConformingTransfer(tokens, c, sender, env.erc20Module, a);
        ok := ConvertERC20NativeToken(c, receiver, p.denom, a, call);
      } else {
        ok := false;
      }
    }

    /** validateGasfreeInteropToken: the loop over the list with its flag. */
    method ValidateGasfreeInteropToken(token: GoString) returns (allowed: bool)
      ensures allowed == B.InteropAllowed(Snapshot(), token)
    {
      hide B.Matches, FindPair;
      var pair := FindPair(registry, token);
      if pair.None? {
        return false;
      }
      allowed := false;
      for i := 0 to |params.interopTokens|
        invariant allowed == exists j :: 0 <= j < i && B.Matches(params.interopTokens[j], pair.value)
      {
        if B.Matches(params.interopTokens[i], pair.value) {
          allowed := true;
          break;
        }
      }
      assert forall j :: 0 <= j < |params.interopTokens| ==> params.interopTokens[j] in params.interopTokens;
    }

    /** DeductGasfreeErc20Fee with DeductBasisPointFee: a balance check, then the payment. */
    method DeductGasfreeErc20Fee(payer: Address, d: L.Denom, a: nat) returns (ok: bool)
      modifies this`bank
      ensures ok == B.DeductFee(old(Snapshot()), payer, d, a).Done?
      ensures ok ==> Snapshot() == B.DeductFee(old(Snapshot()), payer, d, a).state
    {
      FeeIsFloor(a, params.feeBasisPoints);
      hide CalculateBasisPointFee;
      var fee := CalculateBasisPointFee(a, params.feeBasisPoints);
      if fee != 0 {
        if L.Coins(bank, d)[payer] < fee {
          return false;
        }
        ok := SendCoins(d, payer, env.feeCollector, fee);
        if !ok {
          return;
        }
      }
      ok := !(fee == 0 && params.feeBasisPoints > 0);
    }

    method SendCoinToEVM(sender: Address, d: L.Denom, a: nat) returns (ok: bool)
      modifies this`bank, this`tokens, this`registry
      ensures ok == B.SendCoinToEVM(old(Snapshot()), sender, d, a).Done?
      ensures ok ==> Snapshot() == B.SendCoinToEVM(old(Snapshot()), sender, d, a).state
    {
      hide B.InteropAllowed, B.ConvertCoin, B.DeductFee;
      ok := ValidateGasfreeInteropToken(d);
      if !ok {
        return;
      }
      ok := ConvertCoin(sender, sender, d, a);
      if !ok {
        return;
      }
      ok := DeductGasfreeErc20Fee(sender, d, a);
    }

    method SendERC20ToCosmos(sender: Address, token: GoString, a: nat) returns (ok: bool)
      modifies this`bank, this`tokens, this`registry
      ensures ok == B.SendERC20ToCosmos(old(Snapshot()), sender, token, a).Done?
      ensures ok ==> Snapshot() == B.SendERC20ToCosmos(old(Snapshot()), sender, token, a).state
    {
      FeeIsFloor(a, params.feeBasisPoints);
      hide B.InteropAllowed, B.ConvertERC20, B.DeductFee, CalculateBasisPointFee;
      ok := ValidateGasfreeInteropToken(token);
      if !ok {
        return;
      }
      var total := a + CalculateBasisPointFee(a, params.feeBasisPoints);
      ok := ConvertERC20(sender, sender, token, total);
      if !ok {
        return;
      }
      var pair := FindPair(registry, token);
      if pair.None? {
        return false;
      }
      ok := DeductGasfreeErc20Fee(sender, pair.value.denom, a);
    }

    /** `ibc` is how the IBC module takes the coins. */
    method SendERC20ToCosmosAndIBCTransfer(sender: Address, token: GoString, a: nat, ibc: B.IbcTransfer) returns (ok: bool)
      modifies this`bank, this`tokens, this`registry
      ensures ok == B.SendERC20ToCosmosAndIBCTransfer(old(Snapshot()), sender, token, a, ibc).Done?
      ensures ok ==> Snapshot() == B.SendERC20ToCosmosAndIBCTransfer(old(Snapshot()), sender, token, a, ibc).state
    {
      FeeIsFloor(a, params.feeBasisPoints);
      hide B.InteropAllowed, B.ConvertERC20, B.DeductFee, B.IbcSend, CalculateBasisPointFee;
      ok := ValidateGasfreeInteropToken(token);
      if !ok {
        return;
      }
      var total := a + CalculateBasisPointFee(a, params.feeBasisPoints);
      ok := ConvertERC20(sender, sender, token, total);
      if !ok {
        return;
      }
      var pair := FindPair(registry, token);
      if pair.None? {
        return false;
      }
      var sent := B.IbcSend(bank, pair.value.denom, sender, a, ibc);
      if sent.None? {
        return false;
      }
      bank := sent.value;
      ok := DeductGasfreeErc20Fee(sender, pair.value.denom, a);
    }

    // ----- onboarding ---------------------------------------------------------

    /**
     OnRecvPacket of the onboarding module for a packet that could be read: `recipient` has
     received `a` coins of `d` over `channel`.  A conversion that fails is not reverted.
     */
    method OnRecvPacket(enabled: bool, whitelist: seq<string>, channel: string, isModuleAccount: bool,
                        recipient: Address, d: L.Denom, a: nat)
      requires env.erc20Module in env.blocked
      modifies this`bank, this`tokens, this`registry
      ensures Snapshot() == if enabled && channel in whitelist && !isModuleAccount
                            then Chain.Step(old(Snapshot()), Chain.Onboard(recipient, d, a))
                            else old(Snapshot())
    {
      hide B.ConvertCoin, B.ConvertCoinUnreverted, BytesToAddress;
      if !enabled {
        return;
      }
      var found := false;
      for i := 0 to |whitelist|
        invariant found <==> channel in whitelist[..i]
      {
        if whitelist[i] == channel {
          found := true;
        }
      }
      assert whitelist[..|whitelist|] == whitelist;
      if !found || isModuleAccount {
        return;
      }
      NotAdmitted(Snapshot(), recipient, BytesToAddress(recipient.bytes), d, a);
      var id := GetTokenPairID(registry, d);
      if id.None? {
        return;
      }
      var pair := GetTokenPair(registry, id);
      if pair.None? || !pair.value.enabled {
        return;
      }
      var ok := ConvertCoin(recipient, BytesToAddress(recipient.bytes), d, a);
    }

    lemma NotAdmitted(st: B.State, s: Address, r: Address, d: L.Denom, a: nat)
      ensures FindPair(st.registry, d).None? || !FindPair(st.registry, d).value.enabled ==>
                B.ConvertCoinUnreverted(st, s, r, d, a) == st
    {
      hide GetTokenPairID;
    }

    // ----- the hook -----------------------------------------------------------

    /** PostTxProcessing: the loop over the receipt's logs. */
    method PostTxProcessing(logs: seq<H.Log>)
      modifies this`bank, this`tokens
      ensures Snapshot() == H.PostTxProcessing(old(Snapshot()), logs)
    {
      if !params.enableErc20 || !params.enableEVMHook {
        return;
      }
      hide H.HookStep;
      assert logs[0..] == logs;
      for i := 0 to |logs|
        invariant H.HookLoop(Snapshot(), logs[i..]) == H.HookLoop(old(Snapshot()), logs)
        invariant Snapshot() == old(Snapshot()).(bank := bank, tokens := tokens)
      {
        ProcessLog(logs[i]);
        assert logs[i..][1..] == logs[i + 1..];
      }
    }

    /** The body of the hook's loop; `return` is the loop's `continue`. */
    method ProcessLog(log: H.Log)
      modifies this`bank, this`tokens
      ensures Snapshot() == H.HookStep(old(Snapshot()), log)
    {
      hide L.SendCoins, L.BurnToken, L.MintCoins, BytesToAddress;
      if |log.topics| != 3 {
        return;
      }
      if log.event != Some(H.TransferEvent) {
        return;
      }
      if log.amount.None? || log.amount.value <= 0 {
        return;
      }
      var a := log.amount.value;
      var c := log.address;
      if c !in registry.byErc20 {
        return;
      }
      var pair := GetTokenPair(registry, Some(registry.byErc20[c]));
      if pair.None? {
        return;
      }
      var p := pair.value;
      if BytesToAddress(log.topics[2]) != env.erc20Module {
        return;
      }
      if !p.enabled {
        return;
      }
      var ok := false;
      if p.contractOwner == OWNER_MODULE {
        ok := CallEVM(L.BurnToken(tokens, c, env.erc20Module, a));
      } else if p.contractOwner == OWNER_EXTERNAL {
        ok := MintCoins(p.denom, a);
      }
      if !ok {
        return;
      }
      var recipient := BytesToAddress(log.topics[1]);
      var sent := SendCoinsFromModuleToAccount(p.denom, recipient, a);
    }

    // ----- proposals ----------------------------------------------------------

    /** RegisterCoin; `text` is the address of the contract that deployment yields. */
    method RegisterCoin(md: B.Metadata, text: GoString) returns (ok: bool)
      modifies this`tokens, this`registry, this`metadata
      ensures ok == P.RegisterCoin(old(Snapshot()), md, text).Done?
      ensures ok ==> Snapshot() == P.RegisterCoin(old(Snapshot()), md, text).state
    {
      hide HexToAddress, P.Contains, L.Supply, GetID;
      if !params.enableErc20 || P.Contains(md.base, P.EVM_DENOM) || md.name in registry.byDenom || L.Supply(bank, md.base) == 0 {
        return false;
      }
      if md.base in metadata && metadata[md.base] != md {
        return false;
      }
      metadata := metadata[md.base := md];
      var c := HexToAddress(text);
      if c in tokens {
        return false;
      }
      tokens := tokens[c := multiset{}];
      var pair := TokenPair(text, md.base, true, OWNER_MODULE);
      registry := SetTokenPair(registry, pair);
      registry := registry.(byDenom := registry.byDenom[pair.denom := GetID(pair)]);
      registry := registry.(byErc20 := registry.byErc20[Contract(pair) := GetID(pair)]);
      return true;
    }

    /** RegisterERC20 with CreateCoinMetadata. */
    method RegisterERC20(text: GoString, details: Option<GoString>) returns (ok: bool)
      modifies this`registry, this`metadata
      ensures ok == P.RegisterERC20(old(Snapshot()), text, details).Done?
      ensures ok ==> Snapshot() == P.RegisterERC20(old(Snapshot()), text, details).state
    {
      hide HexToAddress, P.CreateDenom, GetID;
      var c := HexToAddress(text);
      if !params.enableErc20 || c in registry.byErc20 || c !in tokens {
        return false;
      }
      var denom := P.CreateDenom(text);
      if denom in metadata || denom in registry.byDenom || details.None? {
        return false;
      }
      metadata := metadata[denom := B.Metadata(denom, denom, details.value)];
      var pair := TokenPair(text, denom, true, OWNER_EXTERNAL);
      registry := SetTokenPair(registry, pair);
      registry := registry.(byDenom := registry.byDenom[pair.denom := GetID(pair)]);
      registry := registry.(byErc20 := registry.byErc20[Contract(pair) := GetID(pair)]);
      return true;
    }

    method ToggleConversion(token: GoString) returns (ok: bool)
      modifies this`registry
      ensures ok == P.ToggleConversion(old(Snapshot()), token).Done?
      ensures ok ==> Snapshot() == P.ToggleConversion(old(Snapshot()), token).state
    {
      hide GetTokenPairID, GetID;
      var id := GetTokenPairID(registry, token);
      if id.None? {
        return false;
      }
      var pair := GetTokenPair(registry, id);
      if pair.None? {
        return false;
      }
      registry := SetTokenPair(registry, pair.value.(enabled := !pair.value.enabled));
      return true;
    }

    // ----- delivery -----------------------------------------------------------

    /** How a message or proposal is delivered: the writes of a failing handler are reverted. */
    method Deliver(op: Chain.Op) returns (ok: bool)
      requires op.MsgConvertCoin? || op.MsgConvertERC20? || op.MsgSendCoinToEVM? || op.MsgSendERC20ToCosmos?
               || op.MsgSendERC20ToCosmosAndIBCTransfer? || op.PropRegisterCoin? || op.PropRegisterERC20? || op.PropToggle?
      modifies this`bank, this`tokens, this`registry, this`metadata
      ensures Snapshot() == Chain.Step(old(Snapshot()), op)
    {
      hide B.ConvertCoin, B.ConvertERC20, B.SendCoinToEVM, B.SendERC20ToCosmos, B.SendERC20ToCosmosAndIBCTransfer,
           P.RegisterCoin, P.RegisterERC20, P.ToggleConversion;
      var b, t, r, m := bank, tokens, registry, metadata;
      match op {
        case MsgConvertCoin(s, x, d, a) => ok := ConvertCoin(s, x, d, a);
        case MsgConvertERC20(s, x, k, a) => ok := ConvertERC20(s, x, k, a);
        case MsgSendCoinToEVM(s, d, a) => ok := SendCoinToEVM(s, d, a);
        case MsgSendERC20ToCosmos(s, k, a) => ok := SendERC20ToCosmos(s, k, a);
        case MsgSendERC20ToCosmosAndIBCTransfer(s, k, a, ibc) => ok := SendERC20ToCosmosAndIBCTransfer(s, k, a, ibc);
        case PropRegisterCoin(md, text) => ok := RegisterCoin(md, text);
        case PropRegisterERC20(text, details) => ok := RegisterERC20(text, details);
        case PropToggle(token) => ok := ToggleConversion(token);
      }
      if !ok {
        bank, tokens, registry, metadata := b, t, r, m;
      }
    }
  }
}
