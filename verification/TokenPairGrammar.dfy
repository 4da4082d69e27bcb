/**
 The byte strings TokenPair.Unmarshal accepts, and what it makes of them, said without the
 parser: sequences of well-formed fields, each applied in turn.
 */
module TokenPairGrammar {
  import opened GoInts
  import opened Varints
  import opened Wire
  import opened UnknownFields
  import opened TokenPairs
  import opened TokenPairCodec

  /** A well-formed field with a positive number; the known numbers have their wire types. */
  ghost predicate Legal(f: Field)
  {
    && WellFormed(f)
    && Number(f) > 0
    && (Number(f) <= 2 ==> f.BytesField?)
    && (3 <= Number(f) <= 4 ==> f.VarintField?)
  }

  /** What a legal field says about a pair. */
  ghost function Apply(p: TokenPair, f: Field): TokenPair
    requires Legal(f)
  {
    match Number(f)
    case 1 => p.(erc20Address := f.data)
    case 2 => p.(denom := f.data)
    case 3 => p.(enabled := Uint64(Value(f.v)) != 0)
    case 4 => p.(contractOwner := Int32(Value(f.v)))
    case _ => p
  }

  ghost predicate AllLegal(fs: seq<Field>)
  {
    forall f :: f in fs ==> Legal(f)
  }

  /** The fields applied from left to right: the last one of a number counts. */
  ghost function ApplyAll(p: TokenPair, fs: seq<Field>): TokenPair
    requires AllLegal(fs)
    decreases |fs|
  {
    if fs == [] then p else assert fs[0] in fs; ApplyAll(Apply(p, fs[0]), fs[1..])
  }

  // ----- one field ----------------------------------------------------------

  /** The parser merges a known field as it is applied. */
  lemma MergesKnown(p: TokenPair, f: Field, rest: seq<byte>, at: nat)
    requires Legal(f) && Number(f) <= 4 && at + |Text(f)| + |rest| <= MAX_INT
    ensures Merge(p, Tag(Number(f), WireType(f), |f.tag|), Payload(f) + rest, at + |f.tag|)
            == Ok(Stepped(Apply(p, f), |Text(f)|))
  {
    hide IsTag, Value, Number;
    if f.BytesField? {
      TakesAnyChunk(f.length, f.data, rest, at + |f.tag|);
    } else {
      TakesDigits(f.v, rest, 0);
    }
  }

  lemma StepsOver(p: TokenPair, f: Field, rest: seq<byte>, at: nat)
    requires Legal(f) && at + |Text(f)| + |rest| <= MAX_INT
    ensures Step(p, Text(f) + rest, at) == Ok(Stepped(Apply(p, f), |Text(f)|))
  {
    hide TakeFieldTag, Merge, SkipFrom, IsTag, Value, Number, Apply;
    TakesFieldTagOf(f, rest);
    if Number(f) <= 4 {
      MergesKnown(p, f, rest, at);
      assert (Text(f) + rest)[|f.tag|..] == Payload(f) + rest;
    } else {
      SkipsField(f, rest, 0, 0);
      AppliesNothing(p, f);
    }
  }

  lemma AppliesNothing(p: TokenPair, f: Field)
    requires Legal(f) && Number(f) > 4
    ensures Apply(p, f) == p
  {
  }

  /** The known field a merge was about. */
  lemma KnownField(p: TokenPair, s: seq<byte>, at: nat) returns (f: Field)
    requires at + |s| <= MAX_INT && Step(p, s, at).Ok? && TakeFieldTag(s).value.num <= 4
    ensures Legal(f) && Text(f) == s[..Step(p, s, at).value.size]
  {
    hide TakeTag, IsTag, Value, TakeVarint, TakeChunk, TakeUnknown, IsDigits;
    var t, n := TakeFieldTag(s).value, Step(p, s, at).value.size;
    ReadsTag(s);
    var tag, rest := s[..t.size], s[t.size..];
    assert s[..n] == tag + rest[..n - t.size];
    if t.num <= 2 {
      var length, data := ReadsChunkOf(rest, at + t.size);
      f := BytesField(tag, length, data);
    } else {
      ReadsDigits(rest, 0);
      f := VarintField(tag, rest[..n - t.size]);
    }
  }

  /** Whatever a round of the parser accepts is a legal field. */
  lemma StepWasField(p: TokenPair, s: seq<byte>, at: nat) returns (f: Field)
    requires at + |s| <= MAX_INT && Step(p, s, at).Ok?
    ensures Legal(f) && Text(f) == s[..Step(p, s, at).value.size]
    ensures Step(p, s, at).value.msg == Apply(p, f)
  {
    hide Merge, SkipFrom, TakeTag, IsTag, Value, Apply, Text;
    var n := Step(p, s, at).value.size;
    if TakeFieldTag(s).value.num <= 4 {
      f := KnownField(p, s, at);
    } else {
      f := ReadsField(s, n, 0);
      SameNumber(f, s, n);
    }
    assert Text(f) + s[n..] == s;
    StepsOver(p, f, s[n..], at);
  }

  // ----- whole messages -----------------------------------------------------

  /** Any sequence of legal fields is accepted and applied in order. */
  lemma {:induction false} DecodesFields(p: TokenPair, fs: seq<Field>, at: nat)
    requires AllLegal(fs) && at + |Texts(fs)| <= MAX_INT
    ensures Decode(p, Texts(fs), at) == Ok(ApplyAll(p, fs))
    decreases |fs|
  {
    hide Step, Legal, Apply, Text;
    if fs != [] {
      var f, rest := fs[0], Texts(fs[1..]);
      assert f in fs;
      StepsOver(p, f, rest, at);
      assert (Text(f) + rest)[|Text(f)|..] == rest;
      DecodesFields(Apply(p, f), fs[1..], at + |Text(f)|);
    }
  }

  /** Whatever is accepted is such a sequence: no byte is left over or shared. */
  lemma {:induction false} SplitsIntoFields(p: TokenPair, s: seq<byte>, at: nat) returns (fs: seq<Field>)
    requires at + |s| <= MAX_INT && Decode(p, s, at).Ok?
    ensures AllLegal(fs) && Texts(fs) == s
    decreases |s|
  {
    hide Step, Legal, Apply, Text;
    if s == [] {
      fs := [];
    } else {
      var k := Step(p, s, at).value;
      var f := StepWasField(p, s, at);
      var rest := SplitsIntoFields(k.msg, s[k.size..], at + k.size);
      fs := [f] + rest;
      assert fs[1..] == rest;
      assert Text(f) + s[k.size..] == s;
    }
  }

  /**
   What Unmarshal computes, in full: a message decodes to `q` exactly if it is a sequence of
   legal fields that, applied to `p` one after the other, give `q`.
   */
  lemma DecodesExactly(p: TokenPair, s: seq<byte>, q: TokenPair)
    requires |s| <= MAX_INT
    ensures Decode(p, s, 0) == Ok(q) <==> exists fs :: AllLegal(fs) && Texts(fs) == s && ApplyAll(p, fs) == q
  {
    hide Decode, AllLegal, ApplyAll;
    if Decode(p, s, 0) == Ok(q) {
      var fs := SplitsIntoFields(p, s, 0);
      DecodesFields(p, fs, 0);
      assert AllLegal(fs) && Texts(fs) == s && ApplyAll(p, fs) == q;
    } else if exists fs :: AllLegal(fs) && Texts(fs) == s && ApplyAll(p, fs) == q {
      var fs :| AllLegal(fs) && Texts(fs) == s && ApplyAll(p, fs) == q;
      DecodesFields(p, fs, 0);
    }
  }
}
