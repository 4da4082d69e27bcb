/**
 Balances.  The holdings of one coin or of one token contract are a multiset of
 accounts, one occurrence per unit held: an account's balance is its multiplicity
 and the total supply is the multiset's size.
 */
module Ledger {
  import opened TokenPairs
  import opened Hex
  import opened PairRegistry

  type Denom = GoString
  type Holdings = multiset<Address>

  /** The bank module: coins by denomination; an absent denomination has no holders. */
  type Bank = map<Denom, Holdings>

  /** The EVM's token contracts; an absent address holds no code. */
  type Tokens = map<Address, Holdings>

  function Coins(b: Bank, d: Denom): Holdings
  {
    if d in b then b[d] else multiset{}
  }

  function Supply(b: Bank, d: Denom): nat
  {
    |Coins(b, d)|
  }

  function Credit(h: Holdings, x: Address, a: nat): (r: Holdings)
    ensures |r| == |h| + a
  {
    h[x := h[x] + a]
  }

  function Debit(h: Holdings, x: Address, a: nat): (r: Holdings)
    requires a <= h[x]
    ensures |r| == |h| - a
  {
    h[x := h[x] - a]
  }

  function Move(h: Holdings, from: Address, to: Address, a: nat): (r: Holdings)
    requires a <= h[from]
    ensures |r| == |h|
  {
    Credit(Debit(h, from, a), to, a)
  }

  // ----- bank module --------------------------------------------------------

  /** SendCoins: refuses an amount of zero and an overdraft. */
  function SendCoins(b: Bank, d: Denom, from: Address, to: Address, a: nat): Option<Bank>
  {
    if 0 < a <= Coins(b, d)[from] then Some(b[d := Move(Coins(b, d), from, to, a)]) else None
  }

  /** MintCoins into a module account. */
  function MintCoins(b: Bank, d: Denom, to: Address, a: nat): Option<Bank>
  {
    if 0 < a then Some(b[d := Credit(Coins(b, d), to, a)]) else None
  }

  /** BurnCoins out of a module account. */
  function BurnCoins(b: Bank, d: Denom, from: Address, a: nat): Option<Bank>
  {
    if 0 < a <= Coins(b, d)[from] then Some(b[d := Debit(Coins(b, d), from, a)]) else None
  }

  // ----- ERC20 contracts ----------------------------------------------------

  /** `transfer` of a conforming contract: reverts on an overdraft or a zero address. */
  function TransferToken(t: Tokens, c: Address, from: Address, to: Address, a: nat): Option<Tokens>
  {
    if c in t && a <= t[c][from] && from != ZERO_ADDRESS && to != ZERO_ADDRESS
    then Some(t[c := Move(t[c], from, to, a)]) else None
  }

  function MintToken(t: Tokens, c: Address, to: Address, a: nat): Option<Tokens>
  {
    if c in t && to != ZERO_ADDRESS then Some(t[c := Credit(t[c], to, a)]) else None
  }

  function BurnToken(t: Tokens, c: Address, from: Address, a: nat): Option<Tokens>
  {
    if c in t && a <= t[c][from] && from != ZERO_ADDRESS then Some(t[c := Debit(t[c], from, a)]) else None
  }

  /** A unit moved there and back leaves the holdings as they were. */
  lemma MoveBack(h: Holdings, x: Address, y: Address, a: nat)
    requires a <= h[x]
    ensures a <= Move(h, x, y, a)[y] && Move(Move(h, x, y, a), y, x, a) == h
  {
  }

  lemma CreditThenDebit(h: Holdings, x: Address, a: nat)
    ensures Debit(Credit(h, x, a), x, a) == h
  {
  }

  lemma MoveIsDebitCredit(h: Holdings, x: Address, y: Address, a: nat)
    requires a <= h[x]
    ensures a <= Move(h, x, y, a)[y] && Debit(Move(h, x, y, a), y, a) == Debit(h, x, a)
  {
  }

  lemma TokenCredited(h: Holdings, x: Address, a: nat)
    ensures Credit(h, x, a)[x] == h[x] + a
  {
  }

  /** Units minted to one account and moved on are units credited to the other. */
  lemma MintThenMove(h: Holdings, m: Address, x: Address, a: nat)
    ensures a <= Credit(h, m, a)[m] && Move(Credit(h, m, a), m, x, a) == Credit(h, x, a)
  {
  }

  /** A transfer shows in the receiver's balance, unless it was to oneself. */
  lemma MovedBalance(h: Holdings, x: Address, y: Address, a: nat)
    requires a <= h[x]
    ensures Move(h, x, y, a)[y] == h[y] + a <==> x != y || a == 0
  {
  }
}
