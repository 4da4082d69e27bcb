/**
 The bridge never owes more than it holds, in every reachable state: the escrow of a coin
 covers the tokens of all module-owned contracts paired with it, and the escrow of an
 external token covers the supply of its coin.
 */
module Solvency {
  import opened TokenPairs
  import opened Hex
  import opened PairRegistry
  import opened Ledger
  import opened Bridge
  import opened Proposals
  import opened Chain
  import opened Sums

  // ----- the invariant ------------------------------------------------------

  ghost predicate Owns(r: Registry, c: Address, d: Denom)
  {
    Registered(r, c, OWNER_MODULE) && r.pairs[r.byErc20[c]].denom == d
  }

  /** For each live contract, what it makes the module owe in coins of `d`. */
  ghost function Owed(r: Registry, t: Tokens, d: Denom): map<Address, nat>
  {
    map c | c in t :: if Owns(r, c, d) then |t[c]| else 0
  }

  /** All tokens of module-owned contracts paired with `d`. */
  ghost function Liability(r: Registry, t: Tokens, d: Denom): nat
  {
    Total(Owed(r, t, d))
  }

  /** What the bridge is allowed to be short of: coins by denomination, tokens by external contract. */
  datatype Debts = Debts(coins: map<Denom, nat>, tokens: map<Address, nat>)

  const NO_DEBTS: Debts := Debts(map[], map[])

  function Due<K>(m: map<K, nat>, k: K): nat
  {
    if k in m then m[k] else 0
  }

  ghost predicate OwnSolvent(st: State, w: Debts)
  {
    forall d :: Liability(st.registry, st.tokens, d) <= Coins(st.bank, d)[st.env.erc20Module] + Due(w.coins, d)
  }

  /** The coin of a registered external contract. */
  ghost function CoinOf(r: Registry, c: Address): Denom
    requires Registered(r, c, OWNER_EXTERNAL)
  {
    r.pairs[r.byErc20[c]].denom
  }

  ghost predicate Foreign(st: State, c: Address)
  {
    c in st.tokens && Registered(st.registry, c, OWNER_EXTERNAL)
  }

  /** By how much an external token's escrow exceeds the supply of its coin. */
  ghost function Gap(st: State, c: Address): int
    requires Foreign(st, c)
  {
    st.tokens[c][st.env.erc20Module] - Supply(st.bank, CoinOf(st.registry, c))
  }

  ghost predicate ForeignSolvent(st: State, w: Debts)
  {
    forall c :: Foreign(st, c) ==> Gap(st, c) + Due(w.tokens, c) >= 0
  }

  ghost predicate Solvent(st: State)
  {
    OwnSolvent(st, NO_DEBTS) && ForeignSolvent(st, NO_DEBTS)
  }

  ghost predicate WellRegistered(st: State)
  {
    ValidEnv(st.env) && Consistent(st.registry) && ContractsIndexed(st.registry)
  }

  /** An external pair's coin is named after its contract and known to the bank; a module pair's coin is not so named. */
  ghost predicate Denominated(r: Registry, metadata: map<Denom, Metadata>)
  {
    forall id :: id in r.pairs ==>
      && (r.pairs[id].contractOwner == OWNER_EXTERNAL ==>
            r.pairs[id].denom == CreateDenom(r.pairs[id].erc20Address) && r.pairs[id].denom in metadata)
      && (r.pairs[id].contractOwner == OWNER_MODULE ==> !IsErc20Denom(r.pairs[id].denom))
  }

  /** A coin in circulation named `erc20/...` is known to the bank. */
  ghost predicate CoinsNamed(st: State)
  {
    forall d :: Supply(st.bank, d) > 0 && IsErc20Denom(d) ==> d in st.metadata
  }

  ghost predicate Sound(st: State, w: Debts)
  {
    WellRegistered(st) && Denominated(st.registry, st.metadata) && CoinsNamed(st) && OwnSolvent(st, w)
  }

  /** The invariant of the bridge, short of no more than `w`. */
  ghost predicate InvUpTo(st: State, w: Debts)
  {
    Sound(st, w) && ForeignSolvent(st, w)
  }

  ghost predicate Inv(st: State)
  {
    InvUpTo(st, NO_DEBTS)
  }

  // ----- the liability under single changes ---------------------------------

  lemma LiabilityMonotone(r: Registry, t: Tokens, r': Registry, t': Tokens, d: Denom)
    requires forall c :: c in t' && Owns(r', c, d) ==> c in t && Owns(r, c, d) && |t'[c]| <= |t[c]|
    requires t'.Keys <= t.Keys
    ensures Liability(r', t', d) <= Liability(r, t, d)
  {
    hide Owns;
    TotalMonotone(Owed(r, t, d), Owed(r', t', d));
  }

  lemma LiabilityUpdate(r: Registry, t: Tokens, c: Address, h: Holdings, d: Denom)
    requires c in t
    ensures Liability(r, t[c := h], d) == Liability(r, t, d) + (if Owns(r, c, d) then |h| - |t[c]| else 0)
  {
    hide Owns;
    var m := Owed(r, t, d);
    var v := if Owns(r, c, d) then |h| else 0;
    assert Owed(r, t[c := h], d) == m[c := v];
    TotalUpdate(m, c, v);
  }

  lemma LiabilityFresh(r: Registry, t: Tokens, c: Address, h: Holdings, d: Denom)
    requires c !in t && (Owns(r, c, d) ==> |h| == 0)
    ensures Liability(r, t[c := h], d) == Liability(r, t, d)
  {
    hide Owns;
    var m := Owed(r, t, d);
    assert Owed(r, t[c := h], d) == m[c := 0];
    TotalUpdate(m, c, 0);
  }

  /** One contract's tokens are covered on their own, too. */
  lemma CoveredAlone(st: State, c: Address, d: Denom, w: Debts)
    requires OwnSolvent(st, w) && c in st.tokens && Owns(st.registry, c, d)
    ensures |st.tokens[c]| <= Coins(st.bank, d)[st.env.erc20Module] + Due(w.coins, d)
  {
    hide Owns;
    TotalAtLeast(Owed(st.registry, st.tokens, d), c);
  }
}
