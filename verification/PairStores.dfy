/**
 The key-value stores behind the registry (x/erc20/keeper/token_pairs.go).
 The primary store holds encoded pairs; each prefix of the module's store is a field.
 */
module PairStores {
  import opened GoInts
  import opened TokenPairs
  import opened Hex
  import opened PairRegistry
  import TokenPairCodec
  import TokenPairCodecLaws

  /** Only the pair whose fields are all unset has the empty encoding. */
  lemma EmptyEncoding(p: TokenPair)
    requires TokenPairCodec.Size(p) <= MAX_INT
    ensures TokenPairCodec.Encode(p) == [] <==> p == EMPTY_PAIR
  {
    if TokenPairCodec.Encode(p) == [] {
      TokenPairCodecLaws.EncodeInjective(p, EMPTY_PAIR);
    }
  }

  // ----- stored values ------------------------------------------------------

  /** Every value decodes. */
  ghost predicate AllDecode(m: map<PairId, seq<byte>>)
  {
    forall id :: id in m ==> |m[id]| <= MAX_INT && TokenPairCodec.Decode(EMPTY_PAIR, m[id], 0).Ok?
  }

  ghost function Decoded(m: map<PairId, seq<byte>>): map<PairId, TokenPair>
    requires AllDecode(m)
  {
    map id | id in m :: TokenPairCodec.Decode(EMPTY_PAIR, m[id], 0).value
  }

  /** What readers find: a value of length zero counts as absent. */
  ghost function Visible(m: map<PairId, seq<byte>>): map<PairId, TokenPair>
    requires AllDecode(m)
  {
    map id | id in m && m[id] != [] :: TokenPairCodec.Decode(EMPTY_PAIR, m[id], 0).value
  }

  lemma SetValue(m: map<PairId, seq<byte>>, id: PairId, p: TokenPair)
    requires AllDecode(m) && TokenPairCodec.Size(p) <= MAX_INT
    ensures var m' := m[id := TokenPairCodec.Encode(p)];
            && AllDecode(m') && Decoded(m') == Decoded(m)[id := p]
            && (p != EMPTY_PAIR ==> Visible(m') == Visible(m)[id := p])
  {
    hide TokenPairCodec.Encode, TokenPairCodec.Decode, TokenPairCodec.Size;
    TokenPairCodecLaws.RoundTrip(p);
    EmptyEncoding(p);
  }

  lemma RemoveValue(m: map<PairId, seq<byte>>, id: PairId)
    requires AllDecode(m)
    ensures AllDecode(m - {id}) && Decoded(m - {id}) == Decoded(m) - {id} && Visible(m - {id}) == Visible(m) - {id}
  {
    hide TokenPairCodec.Decode;
  }

  // ----- the stores ---------------------------------------------------------

  class PairStore {
    var pairStore: map<PairId, seq<byte>>
    var erc20Store: map<Address, PairId>
    var denomStore: map<GoString, PairId>

    ghost predicate Valid()
      reads this
    {
      AllDecode(pairStore)
    }

    /** All that is written, the pair with no field set included. */
    ghost function Written(): Registry
      requires Valid()
      reads this
    {
      Registry(Decoded(pairStore), erc20Store, denomStore)
    }

    /** The registry as its readers see it. */
    ghost function Contents(): Registry
      requires Valid()
      reads this
    {
      Registry(Visible(pairStore), erc20Store, denomStore)
    }

    constructor ()
      ensures Valid() && Contents() == EMPTY_REGISTRY && Written() == EMPTY_REGISTRY
    {
      pairStore, erc20Store, denomStore := map[], map[], map[];
    }

    method SetTokenPair(p: TokenPair)
      requires Valid() && TokenPairCodec.Size(p) <= MAX_INT
      modifies this`pairStore
      ensures Valid()
      ensures Written() == PairRegistry.SetTokenPair(old(Written()), p)
      ensures p != EMPTY_PAIR ==> Contents() == PairRegistry.SetTokenPair(old(Contents()), p)
    {
      hide TokenPairCodec.Encode, TokenPairCodec.Size, AllDecode, Decoded, Visible, GetID;
      SetValue(pairStore, GetID(p), p);
      var bz := TokenPairCodec.Marshal(p);
      pairStore := pairStore[GetID(p) := bz[..]];
    }

    method GetTokenPair(id: Option<PairId>) returns (p: Option<TokenPair>)
      requires Valid()
      ensures p == PairRegistry.GetTokenPair(Contents(), id)
    {
      hide TokenPairCodec.Decode;
      if id.None? {
        return None;
      }
      var bz := if id.value in pairStore then pairStore[id.value] else [];
      if |bz| == 0 {
        return None;
      }
      var r := TokenPairCodec.Unmarshal(EMPTY_PAIR, bz);
      return Some(r.value);
    }

    method GetTokenPairID(token: GoString) returns (id: Option<PairId>)
      requires Valid()
      ensures id == PairRegistry.GetTokenPairID(Contents(), token)
    {
      if IsHexAddress(token) {
        var c := HexToAddress(token);
        return if c in erc20Store then Some(erc20Store[c]) else None;
      }
      return if token in denomStore then Some(denomStore[token]) else None;
    }

    method SetERC20Map(c: Address, id: PairId)
      requires Valid()
      modifies this`erc20Store
      ensures Valid() && Written() == old(Written()).(byErc20 := old(Written()).byErc20[c := id])
      ensures Contents() == old(Contents()).(byErc20 := old(Contents()).byErc20[c := id])
    {
      erc20Store := erc20Store[c := id];
    }

    method SetDenomMap(denom: GoString, id: PairId)
      requires Valid()
      modifies this`denomStore
      ensures Valid() && Written() == old(Written()).(byDenom := old(Written()).byDenom[denom := id])
      ensures Contents() == old(Contents()).(byDenom := old(Contents()).byDenom[denom := id])
    {
      denomStore := denomStore[denom := id];
    }

    method DeleteTokenPair(p: TokenPair)
      requires Valid()
      modifies this
      ensures Valid() && Contents() == PairRegistry.DeleteTokenPair(old(Contents()), p)
      ensures Written() == PairRegistry.DeleteTokenPair(old(Written()), p)
    {
      hide AllDecode, Decoded, Visible, GetID, Contract;
      var id := GetID(p);
      RemoveValue(pairStore, id);
      pairStore := pairStore - {id};
      erc20Store := erc20Store - {Contract(p)};
      denomStore := denomStore - {p.denom};
    }

    /** The three writes of a registration, the pair's value going through the codec. */
    method Register(p: TokenPair)
      requires Valid() && TokenPairCodec.Size(p) <= MAX_INT
      modifies this
      ensures Valid() && Written() == PairRegistry.Register(old(Written()), p)
      ensures p != EMPTY_PAIR ==> Contents() == PairRegistry.Register(old(Contents()), p)
    {
      hide AllDecode, Decoded, Visible, TokenPairCodec.Size, GetID, Contract;
      SetTokenPair(p);
      SetDenomMap(p.denom, GetID(p));
      SetERC20Map(Contract(p), GetID(p));
    }

    /** The iteration over the primary store; `ids` is the order in which it met the keys. */
    method GetTokenPairs() returns (ps: seq<TokenPair>, ghost ids: seq<PairId>)
      requires Valid()
      ensures |ps| == |ids| && forall k :: 0 <= k < |ids| ==> ids[k] in Written().pairs && ps[k] == Written().pairs[ids[k]]
      ensures forall i, j :: 0 <= i < j < |ids| ==> ids[i] != ids[j]
      ensures forall id :: id in Written().pairs ==> id in ids
    {
      hide TokenPairCodec.Decode;
      ps, ids := [], [];
      var todo := pairStore.Keys;
      while todo != {}
        invariant todo <= pairStore.Keys
        invariant |ps| == |ids|
        invariant forall k :: 0 <= k < |ids| ==> ids[k] in Decoded(pairStore) && ids[k] !in todo && ps[k] == Decoded(pairStore)[ids[k]]
        invariant forall i, j :: 0 <= i < j < |ids| ==> ids[i] != ids[j]
        invariant forall id :: id in Decoded(pairStore) && id !in todo ==> id in ids
        decreases |todo|
      {
        var id :| id in todo;
        var r := TokenPairCodec.Unmarshal(EMPTY_PAIR, pairStore[id]);
        ps, ids := ps + [r.value], ids + [id];
        todo := todo - {id};
      }
    }
  }
}
