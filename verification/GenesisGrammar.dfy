/**
 What Params.Unmarshal and GenesisState.Unmarshal accept and make of it, said without the
 parsers (x/erc20/types/genesis.pb.go).
 */
module GenesisGrammar {
  import opened GoInts
  import opened Varints
  import opened Wire
  import opened UnknownFields
  import opened TokenPairs
  import opened GenesisCodec
  import P = TokenPairGrammar

  // ----- Params -------------------------------------------------------------

  /** Fields 1 and 2 are flags; any other positive number is passed over. */
  ghost predicate LegalParam(f: Field)
  {
    Numbered(f) && (Number(f) <= 2 ==> f.VarintField?)
  }

  ghost function ApplyParam(p: Params, f: Field): Params
    requires LegalParam(f)
  {
    match Number(f)
    case 1 => p.(enableErc20 := Uint64(Value(f.v)) != 0)
    case 2 => p.(enableEVMHook := Uint64(Value(f.v)) != 0)
    case _ => p
  }

  ghost predicate LegalParams(fs: seq<Field>)
  {
    forall f :: f in fs ==> LegalParam(f)
  }

  ghost function ApplyParams(p: Params, fs: seq<Field>): Params
    requires LegalParams(fs)
    decreases |fs|
  {
    if fs == [] then p else assert fs[0] in fs; ApplyParams(ApplyParam(p, fs[0]), fs[1..])
  }

  lemma StepsOverParam(p: Params, f: Field, rest: seq<byte>, at: nat)
    requires LegalParam(f) && at + |Text(f)| + |rest| <= MAX_INT
    ensures StepParams(p, Text(f) + rest, at) == Ok(Stepped(ApplyParam(p, f), |Text(f)|))
  {
    hide TakeFieldTag, TakeUnknown, WellFormed, Value, TakeVarint;
    TakesFieldTagOf(f, rest);
    if Number(f) <= 2 {
      assert IsVarint(f.v) by { FlagIsVarint(f); }
      TakesDigits(f.v, rest, 0);
      assert (Text(f) + rest)[|f.tag|..] == f.v + rest;
    } else {
      TakesUnknown(f, rest, at);
    }
  }

  lemma FlagIsVarint(f: Field)
    requires WellFormed(f) && f.VarintField?
    ensures IsVarint(f.v)
  {
  }

  lemma StepWasParam(p: Params, s: seq<byte>, at: nat) returns (f: Field)
    requires at + |s| <= MAX_INT && StepParams(p, s, at).Ok?
    ensures LegalParam(f) && Text(f) == s[..StepParams(p, s, at).value.size]
    ensures StepParams(p, s, at).value.msg == ApplyParam(p, f)
  {
    hide TakeTag, IsTag, Value, TakeVarint, TakeUnknown, IsDigits, ApplyParam;
    var t, n := TakeFieldTag(s).value, StepParams(p, s, at).value.size;
    if t.num <= 2 {
      ReadsTag(s);
      var rest := s[t.size..];
      ReadsDigits(rest, 0);
      f := VarintField(s[..t.size], rest[..n - t.size]);
      assert s[..n] == s[..t.size] + rest[..n - t.size];
    } else {
      f := ReadsUnknown(s, at);
    }
    assert Text(f) + s[n..] == s;
    StepsOverParam(p, f, s[n..], at);
  }

  lemma {:induction false} DecodesParams(p: Params, fs: seq<Field>, at: nat)
    requires LegalParams(fs) && at + |Texts(fs)| <= MAX_INT
    ensures DecodeParams(p, Texts(fs), at) == Ok(ApplyParams(p, fs))
    decreases |fs|
  {
    hide StepParams, LegalParam, ApplyParam, Text;
    if fs != [] {
      var f, rest := fs[0], Texts(fs[1..]);
      assert f in fs;
      StepsOverParam(p, f, rest, at);
      assert (Text(f) + rest)[|Text(f)|..] == rest;
      DecodesParams(ApplyParam(p, f), fs[1..], at + |Text(f)|);
    }
  }

  lemma {:induction false} SplitsParams(p: Params, s: seq<byte>, at: nat) returns (fs: seq<Field>)
    requires at + |s| <= MAX_INT && DecodeParams(p, s, at).Ok?
    ensures LegalParams(fs) && Texts(fs) == s
    decreases |s|
  {
    hide StepParams, LegalParam, ApplyParam, Text;
    if s == [] {
      fs := [];
    } else {
      var k := StepParams(p, s, at).value;
      var f := StepWasParam(p, s, at);
      var rest := SplitsParams(k.msg, s[k.size..], at + k.size);
      fs := [f] + rest;
      assert fs[1..] == rest;
      assert Text(f) + s[k.size..] == s;
    }
  }

  /** Params decode to `q` exactly from the sequences of legal fields that, applied to `p`, give `q`. */
  lemma DecodesParamsExactly(p: Params, s: seq<byte>, q: Params)
    requires |s| <= MAX_INT
    ensures DecodeParams(p, s, 0) == Ok(q) <==> exists fs :: LegalParams(fs) && Texts(fs) == s && ApplyParams(p, fs) == q
  {
    hide DecodeParams, LegalParams, ApplyParams;
    if DecodeParams(p, s, 0) == Ok(q) {
      var fs := SplitsParams(p, s, 0);
      DecodesParams(p, fs, 0);
      assert LegalParams(fs) && Texts(fs) == s && ApplyParams(p, fs) == q;
    } else if exists fs :: LegalParams(fs) && Texts(fs) == s && ApplyParams(p, fs) == q {
      var fs :| LegalParams(fs) && Texts(fs) == s && ApplyParams(p, fs) == q;
      DecodesParams(p, fs, 0);
    }
  }

  // ----- GenesisState -------------------------------------------------------

  /** The bytes say, as Params laid over `p`, `q`. */
  ghost predicate SaysParams(data: seq<byte>, p: Params, q: Params)
  {
    exists fs :: LegalParams(fs) && Texts(fs) == data && ApplyParams(p, fs) == q
  }

  /** The bytes say, as a pair of its own, `q`. */
  ghost predicate SaysPair(data: seq<byte>, q: TokenPair)
  {
    exists fs :: P.AllLegal(fs) && Texts(fs) == data && P.ApplyAll(EMPTY_PAIR, fs) == q
  }

  /** Field 1 is laid over the parameters, field 2 is one more pair, any other is passed over. */
  ghost predicate Turns(gs: GenesisState, f: Field, gs': GenesisState)
  {
    && Numbered(f)
    && (Number(f) <= 2 ==> f.BytesField?)
    && (Number(f) == 1 ==> gs' == gs.(params := gs'.params) && SaysParams(f.data, gs.params, gs'.params))
    && (Number(f) == 2 ==>
          && |gs'.tokenPairs| == |gs.tokenPairs| + 1
          && gs' == gs.(tokenPairs := gs.tokenPairs + [gs'.tokenPairs[|gs.tokenPairs|]])
          && SaysPair(f.data, gs'.tokenPairs[|gs.tokenPairs|]))
    && (Number(f) > 2 ==> gs' == gs)
  }

  ghost predicate TurnsAll(gs: GenesisState, fs: seq<Field>, gs': GenesisState)
    decreases |fs|
  {
    if fs == [] then gs' == gs else exists mid :: Turns(gs, fs[0], mid) && TurnsAll(mid, fs[1..], gs')
  }

  /** A nested message and what it says. */
  lemma MergesSaid(gs: GenesisState, num: int32, body: seq<byte>, gs': GenesisState)
    requires |body| <= MAX_INT && 1 <= num <= 2
    ensures MergeMessage(gs, num, body) == Ok(gs')
            <==> if num == 1 then gs' == gs.(params := gs'.params) && SaysParams(body, gs.params, gs'.params)
                 else && |gs'.tokenPairs| == |gs.tokenPairs| + 1
                      && gs' == gs.(tokenPairs := gs.tokenPairs + [gs'.tokenPairs[|gs.tokenPairs|]])
                      && SaysPair(body, gs'.tokenPairs[|gs.tokenPairs|])
  {
    hide DecodeParams, TokenPairCodec.Decode;
    if num == 1 {
      DecodesParamsExactly(gs.params, body, gs'.params);
    } else {
      if |gs'.tokenPairs| == |gs.tokenPairs| + 1 {
        P.DecodesExactly(EMPTY_PAIR, body, gs'.tokenPairs[|gs.tokenPairs|]);
      }
    }
  }

  lemma StepsOver(gs: GenesisState, f: Field, gs': GenesisState, rest: seq<byte>, at: nat)
    requires Turns(gs, f, gs') && at + |Text(f)| + |rest| <= MAX_INT
    ensures Step(gs, Text(f) + rest, at) == Ok(Stepped(gs', |Text(f)|))
  {
    hide TakeFieldTag, TakeChunk, TakeUnknown, MergeMessage, WellFormed, Value, SaysParams, SaysPair;
    TakesFieldTagOf(f, rest);
    if Number(f) <= 2 {
      ChunkIsVarint(f);
      TakesAnyChunk(f.length, f.data, rest, at + |f.tag|);
      assert (Text(f) + rest)[|f.tag|..] == f.length + f.data + rest;
      MergesSaid(gs, Number(f), f.data, gs');
    } else {
      TakesUnknown(f, rest, at);
    }
  }

  lemma ChunkIsVarint(f: Field)
    requires WellFormed(f) && f.BytesField?
    ensures IsVarint(f.length) && Int64(Value(f.length)) == |f.data|
  {
  }

  lemma StepWasField(gs: GenesisState, s: seq<byte>, at: nat) returns (f: Field)
    requires at + |s| <= MAX_INT && Step(gs, s, at).Ok?
    ensures Text(f) == s[..Step(gs, s, at).value.size] && Turns(gs, f, Step(gs, s, at).value.msg)
  {
    hide TakeTag, IsTag, Value, TakeChunk, TakeUnknown, IsDigits, MergeMessage, SaysParams, SaysPair;
    var t, n := TakeFieldTag(s).value, Step(gs, s, at).value.size;
    if t.num <= 2 {
      ReadsTag(s);
      var rest := s[t.size..];
      var length, data := ReadsChunkOf(rest, at + t.size);
      f := BytesField(s[..t.size], length, data);
      assert s[..n] == s[..t.size] + rest[..n - t.size];
      MergesSaid(gs, t.num, data, Step(gs, s, at).value.msg);
    } else {
      f := ReadsUnknown(s, at);
    }
  }

  lemma {:induction false} DecodesFields(gs: GenesisState, fs: seq<Field>, gs': GenesisState, at: nat)
    requires TurnsAll(gs, fs, gs') && at + |Texts(fs)| <= MAX_INT
    ensures Decode(gs, Texts(fs), at) == Ok(gs')
    decreases |fs|
  {
    hide Step, Turns, Text;
    if fs != [] {
      var f, rest := fs[0], Texts(fs[1..]);
      var mid :| Turns(gs, f, mid) && TurnsAll(mid, fs[1..], gs');
      StepsOver(gs, f, mid, rest, at);
      assert (Text(f) + rest)[|Text(f)|..] == rest;
      DecodesFields(mid, fs[1..], gs', at + |Text(f)|);
    }
  }

  lemma {:induction false} SplitsIntoFields(gs: GenesisState, s: seq<byte>, at: nat) returns (fs: seq<Field>)
    requires at + |s| <= MAX_INT && Decode(gs, s, at).Ok?
    ensures Texts(fs) == s && TurnsAll(gs, fs, Decode(gs, s, at).value)
    decreases |s|
  {
    hide Step, Turns, Text;
    if s == [] {
      fs := [];
    } else {
      var k := Step(gs, s, at).value;
      var f := StepWasField(gs, s, at);
      var rest := SplitsIntoFields(k.msg, s[k.size..], at + k.size);
      fs := [f] + rest;
      assert fs[1..] == rest && fs[0] == f;
      assert Text(f) + s[k.size..] == s;
    }
  }

  /**
   A genesis state decodes to `gs'` exactly from the sequences of fields that turn `gs` into it:
   nested parameters laid over one another, pairs appended in order, other fields passed over.
   */
  lemma DecodesExactly(gs: GenesisState, s: seq<byte>, gs': GenesisState)
    requires |s| <= MAX_INT
    ensures Decode(gs, s, 0) == Ok(gs') <==> exists fs :: Texts(fs) == s && TurnsAll(gs, fs, gs')
  {
    hide Decode, TurnsAll;
    if Decode(gs, s, 0) == Ok(gs') {
      var fs := SplitsIntoFields(gs, s, 0);
      assert Texts(fs) == s && TurnsAll(gs, fs, gs');
    } else if exists fs :: Texts(fs) == s && TurnsAll(gs, fs, gs') {
      var fs :| Texts(fs) == s && TurnsAll(gs, fs, gs');
      DecodesFields(gs, fs, gs', 0);
    }
  }
}
