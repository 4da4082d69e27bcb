/** Genesis import, export and validation (x/erc20/genesis.go, x/erc20/types/genesis.go). */
module Genesis {
  import opened GoInts
  import opened TokenPairs
  import opened Hex
  import opened PairRegistry
  import opened PairStores
  import TokenPairCodec

  predicate IsLetter(c: byte)
  {
    65 <= c <= 90 || 97 <= c <= 122
  }

  /** sdk.ValidateDenom: a letter, then 2 to 127 of letters, digits and `/ : . _ -`. */
  predicate ValidDenom(d: GoString)
  {
    && 3 <= |d| <= 128
    && IsLetter(d[0])
    && forall c :: c in d ==> IsLetter(c) || 48 <= c <= 57 || c in {47, 58, 46, 95, 45}
  }

  /** TokenPair.Validate. */
  predicate ValidPair(p: TokenPair)
  {
    ValidDenom(p.denom) && IsHexAddress(p.erc20Address)
  }

  /** The names coins may have, spelled out. */
  ghost predicate CoinName(d: GoString)
  {
    && 3 <= |d| <= 128
    && ('a' as int <= d[0] <= 'z' as int || 'A' as int <= d[0] <= 'Z' as int)
    && forall i :: 0 <= i < |d| ==>
         || 'a' as int <= d[i] <= 'z' as int || 'A' as int <= d[i] <= 'Z' as int || '0' as int <= d[i] <= '9' as int
         || d[i] == '/' as int || d[i] == ':' as int || d[i] == '.' as int || d[i] == '_' as int || d[i] == '-' as int
  }

  lemma ValidDenomIff(d: GoString)
    ensures ValidDenom(d) <==> CoinName(d)
  {
    if ValidDenom(d) {
      assert forall i :: 0 <= i < |d| ==> d[i] in d;
    }
  }

  ghost predicate ValidPairs(ps: seq<TokenPair>)
  {
    && (forall p :: p in ps ==> CoinName(p.denom) && IsHexAddress(p.erc20Address))
    && (forall i, j :: 0 <= i < j < |ps| ==> ps[i].erc20Address != ps[j].erc20Address)
    && (forall i, j :: 0 <= i < j < |ps| ==> ps[i].denom != ps[j].denom)
  }

  /** GenesisState.Validate: the loop with its two sets of texts already seen. */
  method Validate(ps: seq<TokenPair>) returns (ok: bool)
    ensures ok <==> ValidPairs(ps)
  {
    hide ValidDenom, CoinName, IsHexAddress;
    var seenErc20: set<GoString>, seenDenom: set<GoString> := {}, {};
    for i := 0 to |ps|
      invariant seenErc20 == set j | 0 <= j < i :: ps[j].erc20Address
      invariant seenDenom == set j | 0 <= j < i :: ps[j].denom
      invariant ValidPairs(ps[..i])
    {
      ValidDenomIff(ps[i].denom);
      if ps[i].erc20Address in seenErc20 || ps[i].denom in seenDenom || !ValidPair(ps[i]) {
        assert ps[i] in ps;
        return false;
      }
      assert ps[..i + 1] == ps[..i] + [ps[i]];
      seenErc20, seenDenom := seenErc20 + {ps[i].erc20Address}, seenDenom + {ps[i].denom};
    }
    assert ps[..|ps|] == ps;
    return true;
  }

  // ----- import -------------------------------------------------------------

  /** What the import loop leaves in the three stores. */
  ghost function RegisterAll(r: Registry, ps: seq<TokenPair>): Registry
  {
    if ps == [] then r else Register(RegisterAll(r, ps[..|ps| - 1]), ps[|ps| - 1])
  }

  ghost predicate DistinctContracts(ps: seq<TokenPair>)
  {
    forall i, j :: 0 <= i < j < |ps| ==> Contract(ps[i]) != Contract(ps[j])
  }

  /** Exactly the listed pairs are stored and exactly their keys are indexed. */
  ghost predicate Holds(r: Registry, ps: seq<TokenPair>)
  {
    && (forall p :: p in ps ==> GetID(p) in r.pairs && r.pairs[GetID(p)] == p)
    && (forall id :: id in r.pairs ==> r.pairs[id] in ps)
    && (forall c :: c in r.byErc20 ==> exists p :: p in ps && Contract(p) == c)
    && (forall d :: d in r.byDenom ==> exists p :: p in ps && p.denom == d)
  }

  lemma HoldsNext(r: Registry, ps: seq<TokenPair>, p: TokenPair)
    requires Consistent(r) && Holds(r, ps) && GetID(p) !in r.pairs
    ensures Holds(Register(r, p), ps + [p])
  {
    hide IsHexAddress, HexToAddress, GetID;
    var r', ps' := Register(r, p), ps + [p];
    assert p in ps';
    forall c | c in r'.byErc20
      ensures exists q :: q in ps' && Contract(q) == c
    {
      if c in r.byErc20 && c != Contract(p) {
        var q :| q in ps && Contract(q) == c;
        assert q in ps';
      }
    }
    forall d | d in r'.byDenom
      ensures exists q :: q in ps' && q.denom == d
    {
      if d in r.byDenom && d != p.denom {
        var q :| q in ps && q.denom == d;
        assert q in ps';
      }
    }
  }

  lemma PrefixValid(ps: seq<TokenPair>)
    requires ps != [] && ValidPairs(ps)
    ensures ValidPairs(ps[..|ps| - 1])
    ensures DistinctContracts(ps) ==> DistinctContracts(ps[..|ps| - 1])
    ensures var p := ps[|ps| - 1]; IsHexAddress(p.erc20Address)
    ensures forall q :: q in ps[..|ps| - 1] ==> q.denom != ps[|ps| - 1].denom && q.erc20Address != ps[|ps| - 1].erc20Address
    ensures DistinctContracts(ps) ==> forall q :: q in ps[..|ps| - 1] ==> Contract(q) != Contract(ps[|ps| - 1])
  {
    hide ValidDenom, IsHexAddress, HexToAddress;
    assert ps[|ps| - 1] in ps;
  }

  /** A pair whose denomination is not listed is new to a registry holding the list. */
  lemma NewToRegistry(r: Registry, ps: seq<TokenPair>, p: TokenPair)
    requires Consistent(r) && Holds(r, ps) && IsHexAddress(p.erc20Address)
    requires forall q :: q in ps ==> q.denom != p.denom
    ensures p.denom !in r.byDenom && GetID(p) !in r.pairs
  {
    hide GetID, IsHexAddress, HexToAddress;
    if GetID(p) in r.pairs {
      SameId(r, p);
    }
  }

  /** The registry holds exactly the listed pairs, each found under its denomination. */
  ghost predicate Imported(r: Registry, ps: seq<TokenPair>)
  {
    Consistent(r) && Holds(r, ps) && DenomsIndexed(r)
  }

  lemma ImportNext(r: Registry, ps: seq<TokenPair>, p: TokenPair)
    requires Imported(r, ps) && IsHexAddress(p.erc20Address)
    requires forall q :: q in ps ==> q.denom != p.denom
    ensures Imported(Register(r, p), ps + [p])
  {
    hide Register, GetID, DenomsIndexed, IsHexAddress, Consistent, Holds, HexToAddress;
    NewToRegistry(r, ps, p);
    HoldsNext(r, ps, p);
    RegisterConsistent(r, p);
    RegisterDenomsIndexed(r, p);
  }

  lemma ImportNothing()
    ensures Imported(EMPTY_REGISTRY, [])
  {
  }

  /** Importing validated pairs stores them all, whatever their contracts. */
  lemma {:induction false} ImportHolds(ps: seq<TokenPair>)
    requires ValidPairs(ps)
    ensures Imported(RegisterAll(EMPTY_REGISTRY, ps), ps)
    decreases |ps|
  {
    hide ValidPairs, Register, Imported, IsHexAddress, HexToAddress;
    if ps == [] {
      ImportNothing();
    } else {
      var front, p := ps[..|ps| - 1], ps[|ps| - 1];
      PrefixValid(ps);
      ImportHolds(front);
      assert ps == front + [p];
      ImportNext(RegisterAll(EMPTY_REGISTRY, front), front, p);
    }
  }

  /** Under validation, the import is a bijection exactly if the contracts differ as addresses. */
  lemma {:induction false} ImportBijective(ps: seq<TokenPair>)
    requires ValidPairs(ps)
    ensures Bijective(RegisterAll(EMPTY_REGISTRY, ps)) <==> DistinctContracts(ps)
  {
    var r := RegisterAll(EMPTY_REGISTRY, ps);
    ImportHolds(ps);
    if DistinctContracts(ps) {
      ImportContracts(ps);
    }
    if Bijective(r) {
      forall i, j | 0 <= i < j < |ps|
        ensures Contract(ps[i]) != Contract(ps[j])
      {
        var p, q := ps[i], ps[j];
        assert p in ps && q in ps;
        assert p.denom != q.denom;
        assert r.pairs[GetID(p)] == p && r.pairs[GetID(q)] == q;
        assert r.byErc20[Contract(p)] == GetID(p) && r.byErc20[Contract(q)] == GetID(q);
      }
    }
  }

  /**
   The condition can fail: validation compares texts.  One address in two letter cases passes
   for two contracts, and the import loses the first pair from the address index.
   */
  lemma CasesCollide(a: Address, upper: seq<bool>, upper': seq<bool>, p: TokenPair, q: TokenPair)
    requires |a.bytes| == 20 && |upper| == 40 && |upper'| == 40
    requires p.erc20Address == AddressText(a, upper) && q.erc20Address == AddressText(a, upper')
    requires p.erc20Address != q.erc20Address && ValidDenom(p.denom) && ValidDenom(q.denom) && p.denom != q.denom
    ensures ValidPairs([p, q]) && !DistinctContracts([p, q])
    ensures !Bijective(RegisterAll(EMPTY_REGISTRY, [p, q]))
  {
    hide ValidDenom, IsHexAddress, HexToAddress, Bijective, RegisterAll, AddressText;
    ValidDenomIff(p.denom);
    ValidDenomIff(q.denom);
    AddressTextParses(a, upper);
    AddressTextParses(a, upper');
    assert Contract([p, q][0]) == Contract([p, q][1]);
    ImportBijective([p, q]);
  }

  lemma FirstDigit(a: Address, upper: seq<bool>)
    requires |a.bytes| == 20 && |upper| == 40
    ensures |AddressText(a, upper)| > 2 && AddressText(a, upper)[2] == HexDigit(a.bytes[0] / 16, upper[0])
  {
  }

  lemma ThreeLetters(c: byte)
    requires IsLetter(c)
    ensures ValidDenom([c, c, c])
  {
  }

  /** Such a list exists: the address of twenty bytes 0xab, once in small and once in capital letters. */
  lemma ValidatedYetNotBijective() returns (ps: seq<TokenPair>)
    ensures ValidPairs(ps) && !DistinctContracts(ps) && !Bijective(RegisterAll(EMPTY_REGISTRY, ps))
  {
    var a := Address([171, 171, 171, 171, 171, 171, 171, 171, 171, 171, 171, 171, 171, 171, 171, 171, 171, 171, 171, 171]);
    var small, capital := seq(40, _ => false), seq(40, _ => true);
    var p := TokenPair(AddressText(a, small), [97, 97, 97], true, OWNER_MODULE);
    var q := TokenPair(AddressText(a, capital), [98, 98, 98], true, OWNER_MODULE);
    ThreeLetters(97);
    ThreeLetters(98);
    FirstDigit(a, small);
    FirstDigit(a, capital);
    hide AddressText, ValidDenom, ValidPairs, DistinctContracts, Bijective, RegisterAll;
    CasesCollide(a, small, capital, p, q);
    ps := [p, q];
  }

  lemma {:induction false} ImportContracts(ps: seq<TokenPair>)
    requires ValidPairs(ps) && DistinctContracts(ps)
    ensures ContractsIndexed(RegisterAll(EMPTY_REGISTRY, ps))
    decreases |ps|
  {
    if ps != [] {
      hide ValidPairs, Register, GetID, ContractsIndexed, IsHexAddress, HexToAddress;
      var front, p := ps[..|ps| - 1], ps[|ps| - 1];
      var r := RegisterAll(EMPTY_REGISTRY, front);
      PrefixValid(ps);
      ImportHolds(front);
      ImportContracts(front);
      RegisterContractsIndexed(r, p);
    }
  }

  /** InitGenesis: the loop of three writes per pair, into whatever the stores hold. */
  method InitGenesis(store: PairStore, ps: seq<TokenPair>)
    requires store.Valid()
    requires forall p :: p in ps ==> TokenPairCodec.Size(p) <= MAX_INT
    modifies store
    ensures store.Valid() && store.Written() == RegisterAll(old(store.Written()), ps)
    ensures EMPTY_PAIR !in ps ==> store.Contents() == RegisterAll(old(store.Contents()), ps)
  {
    hide TokenPairCodec.Size, TokenPairCodec.Decode;
    for i := 0 to |ps|
      invariant store.Valid() && store.Written() == RegisterAll(old(store.Written()), ps[..i])
      invariant EMPTY_PAIR !in ps ==> store.Contents() == RegisterAll(old(store.Contents()), ps[..i])
    {
      assert ps[i] in ps;
      store.Register(ps[i]);
      assert ps[..i + 1][..i] == ps[..i];
    }
    assert ps[..|ps|] == ps;
  }

  // ----- export -------------------------------------------------------------

  ghost predicate NoDuplicates(ps: seq<TokenPair>)
  {
    forall i, j :: 0 <= i < j < |ps| ==> ps[i] != ps[j]
  }

  lemma DistinctPairs(ps: seq<TokenPair>)
    requires ValidPairs(ps)
    ensures NoDuplicates(ps)
  {
    hide ValidPair;
  }

  /** What an import stores, each pair under its own identifier. */
  lemma StoredPairs(ps: seq<TokenPair>)
    requires ValidPairs(ps)
    ensures var r := RegisterAll(EMPTY_REGISTRY, ps);
            && (forall p :: p in ps ==> GetID(p) in r.pairs && r.pairs[GetID(p)] == p)
            && (forall id :: id in r.pairs ==> r.pairs[id] in ps && GetID(r.pairs[id]) == id)
  {
    ImportHolds(ps);
    hide ValidPairs, RegisterAll, GetID, IsHexAddress, Contract;
  }

  /** Listing every value of a store once lists every pair once. */
  lemma ExportsAll(r: Registry, ps: seq<TokenPair>, out: seq<TokenPair>, ids: seq<PairId>)
    requires forall p :: p in ps ==> GetID(p) in r.pairs && r.pairs[GetID(p)] == p
    requires forall id :: id in r.pairs ==> r.pairs[id] in ps && GetID(r.pairs[id]) == id
    requires |out| == |ids| && forall k :: 0 <= k < |ids| ==> ids[k] in r.pairs && out[k] == r.pairs[ids[k]]
    requires forall i, j :: 0 <= i < j < |ids| ==> ids[i] != ids[j]
    requires forall id :: id in r.pairs ==> id in ids
    ensures NoDuplicates(out) && forall p :: p in out <==> p in ps
  {
    hide GetID;
    forall p | p in ps
      ensures p in out
    {
      assert GetID(p) in ids;
    }
    forall i, j | 0 <= i < j < |out|
      ensures out[i] != out[j]
    {
      assert GetID(out[i]) == ids[i] && GetID(out[j]) == ids[j];
    }
  }

  /**
   ExportGenesis after InitGenesis: the same pairs, each once.  The order is the
   key order of the primary store.
   */
  method ImportThenExport(ps: seq<TokenPair>) returns (out: seq<TokenPair>)
    requires ValidPairs(ps) && forall p :: p in ps ==> TokenPairCodec.Size(p) <= MAX_INT
    ensures NoDuplicates(out) && NoDuplicates(ps)
    ensures forall p :: p in out <==> p in ps
  {
    hide TokenPairCodec.Size, TokenPairCodec.Decode, GetID, ValidPairs, NoDuplicates;
    DistinctPairs(ps);
    var store := new PairStore();
    InitGenesis(store, ps);
    StoredPairs(ps);
    ghost var ids;
    out, ids := store.GetTokenPairs();
    ExportsAll(RegisterAll(EMPTY_REGISTRY, ps), ps, out, ids);
  }
}
