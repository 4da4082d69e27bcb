/** The codec of `GenesisState` gives back every state, pairs in order. */
module GenesisCodecLaws {
  import opened GoInts
  import opened Varints
  import opened Wire
  import opened UnknownFields
  import opened TokenPairs
  import opened GenesisCodec
  import TokenPairCodec
  import TokenPairCodecLaws

  lemma TakesOne(rest: seq<byte>)
    ensures TakeVarint([1] + rest, 0) == Ok(Read(1, 1))
  {
  }

  lemma ParamsField(p: Params, num: FieldNumber, tag: byte, rest: seq<byte>, at: nat)
    requires num <= 2 && tag == num * 8 && at + 2 + |rest| <= MAX_INT
    ensures DecodeParams(p, [tag] + ([1] + rest), at)
            == DecodeParams(if num == 1 then p.(enableErc20 := true) else p.(enableEVMHook := true), rest, at + 2)
  {
    hide TakeFieldTag, TakeUnknown, TakeVarint;
    var s := [tag] + ([1] + rest);
    TokenPairCodecLaws.TakesFieldTag(num, 0, tag, [1] + rest);
    assert s[1..] == [1] + rest;
    TakesOne(rest);
    assert s[2..] == rest;
  }

  lemma ParamsFlag(p: Params, num: FieldNumber, tag: byte, b: bool, rest: seq<byte>, at: nat)
    requires num <= 2 && tag == num * 8 && at + 2 + |rest| <= MAX_INT
    requires !(if num == 1 then p.enableErc20 else p.enableEVMHook)
    ensures DecodeParams(p, TokenPairCodec.EncodeBool(tag, b) + rest, at)
            == DecodeParams(if num == 1 then p.(enableErc20 := b) else p.(enableEVMHook := b), rest,
                            at + |TokenPairCodec.EncodeBool(tag, b)|)
  {
    hide DecodeParams;
    var s := TokenPairCodec.EncodeBool(tag, b) + rest;
    if b {
      assert s == [tag] + ([1] + rest);
      ParamsField(p, num, tag, rest, at);
    } else {
      assert s == rest;
    }
  }

  /** Params.Unmarshal undoes Params.Marshal. */
  lemma ParamsRoundTrip(p: Params)
    ensures DecodeParams(EMPTY_PARAMS, EncodeParams(p), 0) == Ok(p)
  {
    hide TokenPairCodec.EncodeBool, StepParams;
    var f1, f2 := TokenPairCodec.EncodeBool(0x08, p.enableErc20), TokenPairCodec.EncodeBool(0x10, p.enableEVMHook);
    ParamsFlag(EMPTY_PARAMS, 1, 0x08, p.enableErc20, f2, 0);
    ParamsFlag(EMPTY_PARAMS.(enableErc20 := p.enableErc20), 2, 0x10, p.enableEVMHook, [], |f1|);
    assert f2 + [] == f2;
  }

  /** One round of the parser on a nested message. */
  lemma StepsMessage(gs: GenesisState, num: FieldNumber, tag: byte, body: seq<byte>, rest: seq<byte>, gs': GenesisState, at: nat)
    requires num <= 2 && tag == num * 8 + 2
    requires at + |Prefixed(tag, body)| + |rest| <= MAX_INT
    requires MergeMessage(gs, num, body) == Ok(gs')
    ensures Step(gs, Prefixed(tag, body) + rest, at) == Ok(Stepped(gs', |Prefixed(tag, body)|))
  {
    hide TakeFieldTag, TakeChunk, TakeUnknown, MergeMessage, Varint;
    var s := Prefixed(tag, body) + rest;
    var payload := Varint(|body|) + body + rest;
    assert s == [tag] + payload;
    TokenPairCodecLaws.TakesFieldTag(num, 2, tag, payload);
    assert s[1..] == payload;
    TakesChunk(body, rest, at + 1);
  }

  lemma DecodesMessage(gs: GenesisState, num: FieldNumber, tag: byte, body: seq<byte>, rest: seq<byte>, gs': GenesisState, at: nat)
    requires num <= 2 && tag == num * 8 + 2
    requires at + |Prefixed(tag, body)| + |rest| <= MAX_INT
    requires MergeMessage(gs, num, body) == Ok(gs')
    ensures Decode(gs, Prefixed(tag, body) + rest, at) == Decode(gs', rest, at + |Prefixed(tag, body)|)
  {
    hide Step, MergeMessage, Prefixed;
    StepsMessage(gs, num, tag, body, rest, gs', at);
    assert (Prefixed(tag, body) + rest)[|Prefixed(tag, body)|..] == rest;
  }

  /** The reader appends the pairs in the order in which they lie in the buffer. */
  lemma {:induction false} DecodesPairs(gs: GenesisState, ps: seq<TokenPair>, at: nat)
    requires at + |EncodePairs(ps)| <= MAX_INT
    ensures Decode(gs, EncodePairs(ps), at) == Ok(gs.(tokenPairs := gs.tokenPairs + ps))
    decreases |ps|
  {
    hide Step, TokenPairCodec.Encode, TokenPairCodec.Decode, TokenPairCodec.Size, Prefixed;
    if ps == [] {
      assert gs.tokenPairs + ps == gs.tokenPairs;
    } else {
      var body, rest := TokenPairCodec.Encode(ps[0]), EncodePairs(ps[1..]);
      var gs' := gs.(tokenPairs := gs.tokenPairs + [ps[0]]);
      TokenPairCodecLaws.RoundTrip(ps[0]);
      DecodesMessage(gs, 2, 0x12, body, rest, gs', at);
      DecodesPairs(gs', ps[1..], at + |Prefixed(0x12, body)|);
      assert gs'.tokenPairs + ps[1..] == gs.tokenPairs + ps;
    }
  }

  /** GenesisState.Unmarshal undoes GenesisState.Marshal, for any number of pairs. */
  lemma RoundTrip(gs: GenesisState)
    requires |Encode(gs)| <= MAX_INT
    ensures Decode(EMPTY_STATE, Encode(gs), 0) == Ok(gs)
  {
    hide Decode, DecodeParams, EncodeParams, EncodePairs, Prefixed;
    var body, rest := EncodeParams(gs.params), EncodePairs(gs.tokenPairs);
    ParamsRoundTrip(gs.params);
    var gs' := EMPTY_STATE.(params := gs.params);
    DecodesMessage(EMPTY_STATE, 1, 0x0a, body, rest, gs', 0);
    DecodesPairs(gs', gs.tokenPairs, |Prefixed(0x0a, body)|);
    assert [] + gs.tokenPairs == gs.tokenPairs;
  }
}
