/**
 The pair registry: one primary store and two index stores
 (x/erc20/keeper/token_pairs.go, x/erc20/types/token_pair.go).

 A pair's identifier is the SHA-256 hash of `address|denom`; the hash being
 injective, the identifier is modelled by the hashed text itself.
 */
module PairRegistry {
  import opened GoInts
  import opened TokenPairs
  import opened Hex

  datatype Option<+T> = None | Some(value: T)

  type PairId = seq<byte>
  const SEPARATOR: byte := 124

  datatype Registry = Registry(
    pairs: map<PairId, TokenPair>,
    byErc20: map<Address, PairId>,
    byDenom: map<GoString, PairId>)

  const EMPTY_REGISTRY: Registry := Registry(map[], map[], map[])

  function GetID(p: TokenPair): PairId
  {
    p.erc20Address + [SEPARATOR] + p.denom
  }

  function Contract(p: TokenPair): Address
  {
    HexToAddress(p.erc20Address)
  }

  // ----- reads --------------------------------------------------------------

  function GetTokenPairID(r: Registry, token: GoString): Option<PairId>
  {
    if IsHexAddress(token) then
      var c := HexToAddress(token);
      if c in r.byErc20 then Some(r.byErc20[c]) else None
    else if token in r.byDenom then Some(r.byDenom[token]) else None
  }

  function GetTokenPair(r: Registry, id: Option<PairId>): Option<TokenPair>
  {
    if id.Some? && id.value in r.pairs then Some(r.pairs[id.value]) else None
  }

  /** The pair a denomination or a contract address in text form stands for. */
  function FindPair(r: Registry, token: GoString): Option<TokenPair>
  {
    GetTokenPair(r, GetTokenPairID(r, token))
  }

  // ----- writes -------------------------------------------------------------

  function SetTokenPair(r: Registry, p: TokenPair): Registry
  {
    r.(pairs := r.pairs[GetID(p) := p])
  }

  /** The three writes of a registration. */
  function Register(r: Registry, p: TokenPair): Registry
  {
    Registry(r.pairs[GetID(p) := p], r.byErc20[Contract(p) := GetID(p)], r.byDenom[p.denom := GetID(p)])
  }

  function DeleteTokenPair(r: Registry, p: TokenPair): Registry
  {
    Registry(r.pairs - {GetID(p)}, r.byErc20 - {Contract(p)}, r.byDenom - {p.denom})
  }

  /** ToggleConversion. */
  function Toggle(r: Registry, token: GoString): Option<Registry>
  {
    match FindPair(r, token)
    case None => None
    case Some(p) => Some(SetTokenPair(r, p.(enabled := !p.enabled)))
  }

  // ----- invariants ---------------------------------------------------------

  /** Pairs lie under their own identifier and no index entry dangles. */
  ghost predicate Consistent(r: Registry)
  {
    && (forall id :: id in r.pairs ==> GetID(r.pairs[id]) == id && IsHexAddress(r.pairs[id].erc20Address))
    && (forall c :: c in r.byErc20 ==> r.byErc20[c] in r.pairs && Contract(r.pairs[r.byErc20[c]]) == c)
    && (forall d :: d in r.byDenom ==> r.byDenom[d] in r.pairs && r.pairs[r.byDenom[d]].denom == d)
  }

  /** Every stored pair is found under its contract. */
  ghost predicate ContractsIndexed(r: Registry)
  {
    forall id :: id in r.pairs ==> Contract(r.pairs[id]) in r.byErc20 && r.byErc20[Contract(r.pairs[id])] == id
  }

  /** Every stored pair is found under its denomination. */
  ghost predicate DenomsIndexed(r: Registry)
  {
    forall id :: id in r.pairs ==> r.pairs[id].denom in r.byDenom && r.byDenom[r.pairs[id].denom] == id
  }

  /** The three stores are in bijection. */
  ghost predicate Bijective(r: Registry)
  {
    Consistent(r) && ContractsIndexed(r) && DenomsIndexed(r)
  }

  // ----- identifiers --------------------------------------------------------

  lemma SplitUnique(a: seq<byte>, b: seq<byte>, c: seq<byte>, d: seq<byte>)
    requires SEPARATOR !in a && SEPARATOR !in c
    requires a + [SEPARATOR] + b == c + [SEPARATOR] + d
    ensures a == c && b == d
  {
    var s := a + [SEPARATOR] + b;
    assert s[|a|] == SEPARATOR && s[|c|] == SEPARATOR;
    assert forall k :: 0 <= k < |a| ==> s[k] == a[k] != SEPARATOR;
    assert forall k :: 0 <= k < |c| ==> s[k] == c[k] != SEPARATOR;
    assert |a| == |c|;
    assert a == s[..|a|] && c == s[..|c|];
    assert b == s[|a| + 1..] && d == s[|c| + 1..];
  }

  /** Two pairs with hexadecimal addresses share an identifier only if both texts agree. */
  lemma IdInjective(p: TokenPair, q: TokenPair)
    requires IsHexAddress(p.erc20Address) && IsHexAddress(q.erc20Address)
    requires GetID(p) == GetID(q)
    ensures p.erc20Address == q.erc20Address && p.denom == q.denom
    ensures GetID(p)[|p.erc20Address|] == '|' as int
  {
    HexHasNo(p.erc20Address, SEPARATOR);
    HexHasNo(q.erc20Address, SEPARATOR);
    SplitUnique(p.erc20Address, p.denom, q.erc20Address, q.denom);
  }

  /** What an identifier already stored stands for. */
  lemma SameId(r: Registry, p: TokenPair)
    requires Consistent(r) && IsHexAddress(p.erc20Address) && GetID(p) in r.pairs
    ensures r.pairs[GetID(p)].erc20Address == p.erc20Address && r.pairs[GetID(p)].denom == p.denom
  {
    IdInjective(r.pairs[GetID(p)], p);
  }

  // ----- what every write keeps ---------------------------------------------

  lemma RegisterConsistent(r: Registry, p: TokenPair)
    requires Consistent(r) && IsHexAddress(p.erc20Address)
    ensures Consistent(Register(r, p))
  {
    hide IsHexAddress, HexToAddress, GetID;
    if GetID(p) in r.pairs {
      SameId(r, p);
    }
  }

  /** Deleting a stored pair leaves no entry of either index pointing to it. */
  lemma DeleteConsistent(r: Registry, p: TokenPair)
    requires Consistent(r) && GetID(p) in r.pairs && r.pairs[GetID(p)] == p
    ensures Consistent(DeleteTokenPair(r, p))
  {
    hide IsHexAddress, HexToAddress, GetID;
  }

  lemma SetConsistent(r: Registry, p: TokenPair)
    requires Consistent(r) && IsHexAddress(p.erc20Address) && GetID(p) in r.pairs
    ensures Consistent(SetTokenPair(r, p))
    ensures ContractsIndexed(r) ==> ContractsIndexed(SetTokenPair(r, p))
    ensures DenomsIndexed(r) ==> DenomsIndexed(SetTokenPair(r, p))
  {
    hide IsHexAddress, HexToAddress, GetID;
    SameId(r, p);
  }

  lemma FoundPair(r: Registry, token: GoString)
    requires Consistent(r) && FindPair(r, token).Some?
    ensures var p := FindPair(r, token).value;
            && GetID(p) in r.pairs && r.pairs[GetID(p)] == p && IsHexAddress(p.erc20Address)
            && (IsHexAddress(token) ==> Contract(p) == HexToAddress(token))
            && (!IsHexAddress(token) ==> p.denom == token)
  {
  }

  /** Toggling replaces the pair, under the same identifier, by the same pair with its flag flipped. */
  lemma ToggleEffect(r: Registry, token: GoString)
    requires Consistent(r) && FindPair(r, token).Some?
    ensures var p := FindPair(r, token).value; var q := p.(enabled := !p.enabled);
            && GetID(q) == GetID(p) && GetID(p) in r.pairs && r.pairs[GetID(p)] == p && IsHexAddress(p.erc20Address)
            && Toggle(r, token) == Some(SetTokenPair(r, q))
            && SetTokenPair(r, q).pairs[GetID(q)] == q
            && FindPair(SetTokenPair(r, q), token) == Some(q)
  {
    FoundPair(r, token);
    hide IsHexAddress, HexToAddress;
  }

  lemma ToggleKeeps(r: Registry, token: GoString)
    requires Consistent(r) && Toggle(r, token).Some?
    ensures Consistent(Toggle(r, token).value)
    ensures ContractsIndexed(r) ==> ContractsIndexed(Toggle(r, token).value)
    ensures DenomsIndexed(r) ==> DenomsIndexed(Toggle(r, token).value)
  {
    hide IsHexAddress, FindPair, GetID, Consistent, ContractsIndexed, DenomsIndexed, SetTokenPair;
    ToggleEffect(r, token);
    var p := FindPair(r, token).value;
    SetConsistent(r, p.(enabled := !p.enabled));
  }

  /** A second toggle undoes the first. */
  lemma ToggleTwice(r: Registry, token: GoString)
    requires Consistent(r) && Toggle(r, token).Some?
    ensures Toggle(Toggle(r, token).value, token) == Some(r)
  {
    hide IsHexAddress, FindPair, GetID, Consistent;
    ToggleKeeps(r, token);
    ToggleEffect(r, token);
    var p := FindPair(r, token).value;
    var r' := Toggle(r, token).value;
    ToggleEffect(r', token);
    assert r'.pairs[GetID(p) := p] == r.pairs;
  }

  // ----- the bijection ------------------------------------------------------

  lemma RegisterContractsIndexed(r: Registry, p: TokenPair)
    requires Consistent(r) && ContractsIndexed(r) && IsHexAddress(p.erc20Address)
    requires Contract(p) !in r.byErc20
    ensures ContractsIndexed(Register(r, p))
  {
    hide IsHexAddress, HexToAddress, GetID;
  }

  lemma DeleteContractsIndexed(r: Registry, p: TokenPair)
    requires Consistent(r) && ContractsIndexed(r) && GetID(p) in r.pairs && r.pairs[GetID(p)] == p
    ensures ContractsIndexed(DeleteTokenPair(r, p))
  {
    hide IsHexAddress, HexToAddress, GetID;
  }

  /** A denomination registered a second time leaves its first pair unindexed. */
  lemma RegisterHidesDenom(r: Registry, p: TokenPair)
    requires Bijective(r) && IsHexAddress(p.erc20Address) && Contract(p) !in r.byErc20
    requires p.denom in r.byDenom
    ensures !DenomsIndexed(Register(r, p))
  {
    hide IsHexAddress, HexToAddress, GetID;
    if GetID(p) in r.pairs {
      SameId(r, p);
    }
    var earlier := r.byDenom[p.denom];
    assert earlier in Register(r, p).pairs && Register(r, p).pairs[earlier] == r.pairs[earlier];
  }

  lemma RegisterDenomsIndexed(r: Registry, p: TokenPair)
    requires DenomsIndexed(r) && p.denom !in r.byDenom
    ensures DenomsIndexed(Register(r, p))
  {
    hide IsHexAddress, HexToAddress, GetID;
  }

  /**
   Registering a pair with a fresh contract keeps the bijection exactly when the
   denomination itself is not registered yet.
   */
  lemma RegisterBijective(r: Registry, p: TokenPair)
    requires Bijective(r) && IsHexAddress(p.erc20Address) && Contract(p) !in r.byErc20
    ensures Bijective(Register(r, p)) <==> p.denom !in r.byDenom
  {
    hide IsHexAddress, HexToAddress, GetID, Consistent, ContractsIndexed, DenomsIndexed, Register;
    RegisterConsistent(r, p);
    RegisterContractsIndexed(r, p);
    if p.denom in r.byDenom {
      RegisterHidesDenom(r, p);
    } else {
      RegisterDenomsIndexed(r, p);
    }
  }

  lemma DeleteBijective(r: Registry, p: TokenPair)
    requires Bijective(r) && GetID(p) in r.pairs && r.pairs[GetID(p)] == p
    ensures Bijective(DeleteTokenPair(r, p))
  {
    hide IsHexAddress, HexToAddress, GetID;
    DeleteConsistent(r, p);
    DeleteContractsIndexed(r, p);
  }

  /** Under the bijection, looking a pair up by contract and by denomination agrees. */
  lemma LookupsAgree(r: Registry, p: TokenPair)
    requires Bijective(r) && GetID(p) in r.pairs && r.pairs[GetID(p)] == p
    ensures FindPair(r, p.erc20Address) == Some(p)
    ensures FindPair(r, p.denom) == Some(p) || IsHexAddress(p.denom)
  {
  }
}
