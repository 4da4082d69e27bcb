/** The wire codecs of `Params` and `GenesisState` (x/erc20/types/genesis.pb.go). */
module GenesisCodec {
  import opened GoInts
  import opened Varints
  import opened Wire
  import opened TokenPairs
  import TokenPairCodec

  datatype Params = Params(enableErc20: bool, enableEVMHook: bool)
  datatype GenesisState = GenesisState(params: Params, tokenPairs: seq<TokenPair>)

  const EMPTY_PARAMS: Params := Params(false, false)
  const EMPTY_STATE: GenesisState := GenesisState(EMPTY_PARAMS, [])

  // ----- the encoding -------------------------------------------------------

  function EncodeParams(p: Params): (r: seq<byte>)
    ensures |r| <= 4
  {
    TokenPairCodec.EncodeBool(0x08, p.enableErc20) + TokenPairCodec.EncodeBool(0x10, p.enableEVMHook)
  }

  function EncodePairs(ps: seq<TokenPair>): (r: seq<byte>)
  {
    if ps == [] then [] else Prefixed(0x12, TokenPairCodec.Encode(ps[0])) + EncodePairs(ps[1..])
  }

  function Encode(gs: GenesisState): (r: seq<byte>)
  {
    Prefixed(0x0a, EncodeParams(gs.params)) + EncodePairs(gs.tokenPairs)
  }

  function ParamsSize(p: Params): (n: nat)
    ensures n == |EncodeParams(p)|
  {
    var n := if p.enableErc20 then 2 else 0;
    if p.enableEVMHook then n + 2 else n
  }

  lemma {:induction false} EncodePairsAppend(ps: seq<TokenPair>, p: TokenPair)
    ensures EncodePairs(ps + [p]) == EncodePairs(ps) + Prefixed(0x12, TokenPairCodec.Encode(p))
    decreases |ps|
  {
    if ps == [] {
      assert (ps + [p])[1..] == [];
    } else {
      assert (ps + [p])[1..] == ps[1..] + [p];
      EncodePairsAppend(ps[1..], p);
    }
  }

  /** GenesisState.Size, a loop over the pairs. */
  method Size(gs: GenesisState) returns (n: nat)
    ensures n == |Encode(gs)|
  {
    hide Prefixed, TokenPairCodec.Encode, TokenPairCodec.Size;
    var l := ParamsSize(gs.params);
    SovIsLength(l);
    n := 1 + l + Sov(l);
    for i := 0 to |gs.tokenPairs|
      invariant n == |Prefixed(0x0a, EncodeParams(gs.params))| + |EncodePairs(gs.tokenPairs[..i])|
    {
      l := TokenPairCodec.Size(gs.tokenPairs[i]);
      SovIsLength(l);
      n := n + 1 + l + Sov(l);
      assert gs.tokenPairs[..i + 1] == gs.tokenPairs[..i] + [gs.tokenPairs[i]];
      EncodePairsAppend(gs.tokenPairs[..i], gs.tokenPairs[i]);
    }
    assert gs.tokenPairs[..|gs.tokenPairs|] == gs.tokenPairs;
  }

  // ----- the backward writers -----------------------------------------------

  /** Params.MarshalToSizedBuffer on the part of the buffer before `end`. */
  method MarshalParams(p: Params, buf: array<byte>, end: nat) returns (n: nat)
    requires |EncodeParams(p)| <= end <= buf.Length
    modifies buf
    ensures n == |EncodeParams(p)|
    ensures buf[..] == Splice(old(buf[..]), end - n, EncodeParams(p))
  {
    hide TokenPairCodec.EncodeBool, Splice;
    ghost var f1, f2 := TokenPairCodec.EncodeBool(0x08, p.enableErc20), TokenPairCodec.EncodeBool(0x10, p.enableEVMHook);
    var i := TokenPairCodec.PutBool(buf, end, 0x10, p.enableEVMHook);
    i := TokenPairCodec.PutBool(buf, i, 0x08, p.enableErc20);
    SpliceBefore(old(buf[..]), i, f1, f2);
    n := end - i;
  }

  method PutPair(p: TokenPair, buf: array<byte>, end: nat) returns (i: nat)
    requires |Prefixed(0x12, TokenPairCodec.Encode(p))| <= end <= buf.Length <= MAX_INT
    modifies buf
    ensures i == end - |Prefixed(0x12, TokenPairCodec.Encode(p))|
    ensures buf[..] == Splice(old(buf[..]), i, Prefixed(0x12, TokenPairCodec.Encode(p)))
  {
    hide TokenPairCodec.Encode, TokenPairCodec.Size, Prefixed, Splice;
    var size := TokenPairCodec.MarshalToSizedBuffer(p, buf, end);
    i := PutPrefix(buf, end - size, 0x12, size, old(buf[..]), TokenPairCodec.Encode(p));
  }

  /** The reverse loop over the pairs in GenesisState.MarshalToSizedBuffer. */
  method MarshalPairs(ps: seq<TokenPair>, buf: array<byte>, end: nat) returns (i: nat)
    requires |EncodePairs(ps)| <= end <= buf.Length <= MAX_INT
    modifies buf
    ensures i == end - |EncodePairs(ps)|
    ensures buf[..] == Splice(old(buf[..]), i, EncodePairs(ps))
  {
    hide TokenPairCodec.Encode, Prefixed, Splice;
    i := end;
    var k := |ps|;
    SpliceNothing(buf[..], end);
    while k > 0
      invariant 0 <= k <= |ps|
      invariant i == end - |EncodePairs(ps[k..])| && |EncodePairs(ps[k..])| <= |EncodePairs(ps)|
      invariant buf[..] == Splice(old(buf[..]), i, EncodePairs(ps[k..]))
    {
      k := k - 1;
      EncodePairsSuffix(ps, k);
      i := PutPair(ps[k], buf, i);
      SpliceBefore(old(buf[..]), i, Prefixed(0x12, TokenPairCodec.Encode(ps[k])), EncodePairs(ps[k + 1..]));
    }
    assert ps[0..] == ps;
  }

  /** What is still to be written is part of what there is to write. */
  lemma {:induction false} EncodePairsSuffix(ps: seq<TokenPair>, k: nat)
    requires k < |ps|
    ensures EncodePairs(ps[k..]) == Prefixed(0x12, TokenPairCodec.Encode(ps[k])) + EncodePairs(ps[k + 1..])
    ensures |EncodePairs(ps[k..])| <= |EncodePairs(ps)|
  {
    assert ps[k..][1..] == ps[k + 1..];
    if k > 0 {
      EncodePairsSuffix(ps, k - 1);
    } else {
      assert ps[0..] == ps;
    }
  }

  /** GenesisState.MarshalToSizedBuffer on a buffer of any length that is enough. */
  method MarshalToSizedBuffer(gs: GenesisState, buf: array<byte>) returns (n: nat)
    requires |Encode(gs)| <= buf.Length <= MAX_INT
    modifies buf
    ensures n == |Encode(gs)|
    ensures buf[..] == Splice(old(buf[..]), buf.Length - n, Encode(gs))
  {
    hide EncodePairs, EncodeParams, Splice;
    ghost var was, params, pairs := buf[..], EncodeParams(gs.params), EncodePairs(gs.tokenPairs);
    var i := MarshalPairs(gs.tokenPairs, buf, buf.Length);
    ghost var later := buf[..];
    var size := MarshalParams(gs.params, buf, i);
    i := i - size;
    i := PutPrefix(buf, i, 0x0a, size, later, params);
    SpliceBefore(was, i, Prefixed(0x0a, params), pairs);
    n := buf.Length - i;
  }

  /** GenesisState.Marshal: a buffer of exactly `Size` bytes, filled from the back. */
  method Marshal(gs: GenesisState) returns (buf: array<byte>)
    requires |Encode(gs)| <= MAX_INT
    ensures fresh(buf) && buf[..] == Encode(gs)
  {
    var size := Size(gs);
    buf := new byte[size];
    var n := MarshalToSizedBuffer(gs, buf);
  }

  // ----- the parsers --------------------------------------------------------

  function StepParams(p: Params, s: seq<byte>, at: nat): (r: Result<Stepped<Params>>)
    requires at + |s| <= MAX_INT
    ensures r.Ok? ==> 1 <= r.value.size <= |s|
  {
    match TakeFieldTag(s)
    case Err(e) => Err(e)
    case Ok(t) =>
      if t.num == 1 || t.num == 2 then
        if t.wire != 0 then Err(WrongWireType) else
        match TakeVarint(s[t.size..], 0)
        case Err(e) => Err(e)
        case Ok(v) =>
          var b := Uint64(v.value) != 0;
          Ok(Stepped(if t.num == 1 then p.(enableErc20 := b) else p.(enableEVMHook := b), t.size + v.size))
      else
        match TakeUnknown(s, at)
        case Err(e) => Err(e)
        case Ok(n) => Ok(Stepped(p, n))
  }

  function DecodeParams(p: Params, s: seq<byte>, at: nat): (r: Result<Params>)
    requires at + |s| <= MAX_INT
    decreases |s|
  {
    if s == [] then Ok(p) else
    match StepParams(p, s, at)
    case Err(e) => Err(e)
    case Ok(k) => DecodeParams(k.msg, s[k.size..], at + k.size)
  }

  /** A nested message merged into the genesis state. */
  function MergeMessage(gs: GenesisState, num: int32, body: seq<byte>): (r: Result<GenesisState>)
    requires |body| <= MAX_INT
  {
    if num == 1 then
      match DecodeParams(gs.params, body, 0)
      case Err(e) => Err(e)
      case Ok(p) => Ok(gs.(params := p))
    else
      match TokenPairCodec.Decode(EMPTY_PAIR, body, 0)
      case Err(e) => Err(e)
      case Ok(p) => Ok(gs.(tokenPairs := gs.tokenPairs + [p]))
  }

  function Step(gs: GenesisState, s: seq<byte>, at: nat): (r: Result<Stepped<GenesisState>>)
    requires at + |s| <= MAX_INT
    ensures r.Ok? ==> 1 <= r.value.size <= |s|
  {
    match TakeFieldTag(s)
    case Err(e) => Err(e)
    case Ok(t) =>
      if t.num == 1 || t.num == 2 then
        if t.wire != 2 then Err(WrongWireType) else
        match TakeChunk(s[t.size..], at + t.size)
        case Err(e) => Err(e)
        case Ok(c) =>
          assert |c.body| <= |s|;
          match MergeMessage(gs, t.num, c.body)
          case Err(e) => Err(e)
          case Ok(gs') => Ok(Stepped(gs', t.size + c.size))
      else
        match TakeUnknown(s, at)
        case Err(e) => Err(e)
        case Ok(n) => Ok(Stepped(gs, n))
  }

  function Decode(gs: GenesisState, s: seq<byte>, at: nat): (r: Result<GenesisState>)
    requires at + |s| <= MAX_INT
    decreases |s|
  {
    if s == [] then Ok(gs) else
    match Step(gs, s, at)
    case Err(e) => Err(e)
    case Ok(k) => Decode(k.msg, s[k.size..], at + k.size)
  }

  method ReadParamsField(p: Params, data: seq<byte>, i: nat) returns (r: Result<Stepped<Params>>)
    requires i <= |data| <= MAX_INT
    ensures r == StepParams(p, data[i..], i)
  {
    var t := ReadFieldTag(data, i);
    if t.Err? {
      return Err(t.error);
    }
    var tag := t.value;
    if tag.num == 1 || tag.num == 2 {
      if tag.wire != 0 {
        return Err(WrongWireType);
      }
      assert data[i..][tag.size..] == data[i + tag.size..];
      var v := ReadVarint(data, i + tag.size);
      if v.Err? {
        return Err(v.error);
      }
      var b := v.value.value != 0;
      return Ok(Stepped(if tag.num == 1 then p.(enableErc20 := b) else p.(enableEVMHook := b), tag.size + v.value.size));
    }
    var n := ReadUnknown(data, i);
    r := match n case Err(e) => Err(e) case Ok(n) => Ok(Stepped(p, n));
  }

  /** Params.Unmarshal, merging the fields of `data` into `m`. */
  method UnmarshalParams(m: Params, data: seq<byte>) returns (r: Result<Params>)
    requires |data| <= MAX_INT
    ensures r == DecodeParams(m, data, 0)
  {
    hide StepParams;
    var p, i := m, 0;
    assert data[0..] == data;
    while i < |data|
      invariant 0 <= i <= |data|
      invariant DecodeParams(m, data, 0) == DecodeParams(p, data[i..], i)
      decreases |data| - i
    {
      var f := ReadParamsField(p, data, i);
      if f.Err? {
        return Err(f.error);
      }
      assert data[i..][f.value.size..] == data[i + f.value.size..];
      p, i := f.value.msg, i + f.value.size;
    }
    return Ok(p);
  }

  method ReadMessage(gs: GenesisState, num: int32, body: seq<byte>) returns (r: Result<GenesisState>)
    requires |body| <= MAX_INT
    ensures r == MergeMessage(gs, num, body)
  {
    if num == 1 {
      var p := UnmarshalParams(gs.params, body);
      r := match p case Err(e) => Err(e) case Ok(p) => Ok(gs.(params := p));
    } else {
      var p := TokenPairCodec.Unmarshal(EMPTY_PAIR, body);
      r := match p case Err(e) => Err(e) case Ok(p) => Ok(gs.(tokenPairs := gs.tokenPairs + [p]));
    }
  }

  method ReadField(gs: GenesisState, data: seq<byte>, i: nat) returns (r: Result<Stepped<GenesisState>>)
    requires i <= |data| <= MAX_INT
    ensures r == Step(gs, data[i..], i)
  {
    hide TakeFieldTag, TakeChunk, TakeUnknown, MergeMessage;
    var t := ReadFieldTag(data, i);
    if t.Err? {
      return Err(t.error);
    }
    var tag := t.value;
    if tag.num == 1 || tag.num == 2 {
      if tag.wire != 2 {
        return Err(WrongWireType);
      }
      assert data[i..][tag.size..] == data[i + tag.size..];
      var c := ReadChunk(data, i + tag.size);
      if c.Err? {
        return Err(c.error);
      }
      var m := ReadMessage(gs, tag.num, c.value.body);
      r := match m case Err(e) => Err(e) case Ok(gs') => Ok(Stepped(gs', tag.size + c.value.size));
    } else {
      var n := ReadUnknown(data, i);
      r := match n case Err(e) => Err(e) case Ok(n) => Ok(Stepped(gs, n));
    }
  }

  /** GenesisState.Unmarshal, merging the fields of `data` into `m`. */
  method Unmarshal(m: GenesisState, data: seq<byte>) returns (r: Result<GenesisState>)
    requires |data| <= MAX_INT
    ensures r == Decode(m, data, 0)
  {
    hide Step;
    var gs, i := m, 0;
    assert data[0..] == data;
    while i < |data|
      invariant 0 <= i <= |data|
      invariant Decode(m, data, 0) == Decode(gs, data[i..], i)
      decreases |data| - i
    {
      var f := ReadField(gs, data, i);
      if f.Err? {
        return Err(f.error);
      }
      assert data[i..][f.value.size..] == data[i + f.value.size..];
      gs, i := f.value.msg, i + f.value.size;
    }
    return Ok(gs);
  }
}
