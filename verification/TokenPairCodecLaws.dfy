/** What the codec of `TokenPair` promises: round trip, composition, unknown fields. */
module TokenPairCodecLaws {
  import opened GoInts
  import opened Varints
  import opened Wire
  import opened UnknownFields
  import opened TokenPairs
  import opened TokenPairCodec

  // ----- composition --------------------------------------------------------

  lemma MergeLocal(p: TokenPair, t: Tag, s: seq<byte>, rest: seq<byte>, at: nat)
    requires at + |s| + |rest| <= MAX_INT && 1 <= t.num <= 4
    requires Merge(p, t, s, at).Ok?
    ensures Merge(p, t, s + rest, at) == Merge(p, t, s, at)
  {
    if t.num <= 2 {
      TakeChunkLocal(s, rest, at);
    } else {
      TakeVarintLocal(s, rest, 0);
    }
  }

  /** A field is parsed from its own bytes alone. */
  lemma StepLocal(p: TokenPair, s: seq<byte>, rest: seq<byte>, at: nat)
    requires at + |s| + |rest| <= MAX_INT
    requires Step(p, s, at).Ok?
    ensures Step(p, s + rest, at) == Step(p, s, at)
  {
    hide Merge, TakeTag, SkipFrom;
    TakeTagLocal(s, rest);
    var t := TakeFieldTag(s).value;
    if 1 <= t.num <= 4 {
      assert (s + rest)[t.size..] == s[t.size..] + rest;
      MergeLocal(p, t, s[t.size..], rest, at + t.size);
    } else {
      SkipLocal(s, rest, 0, 0);
    }
  }

  /** Parsing a concatenation is parsing its parts one after the other. */
  lemma {:induction false} DecodeAppend(p: TokenPair, a: seq<byte>, b: seq<byte>, at: nat)
    requires at + |a| + |b| <= MAX_INT
    requires Decode(p, a, at).Ok?
    ensures Decode(p, a + b, at) == Decode(Decode(p, a, at).value, b, at + |a|)
    decreases |a|
  {
    hide Step;
    if a == [] {
      assert a + b == b;
    } else {
      StepLocal(p, a, b, at);
      var k := Step(p, a, at).value;
      assert (a + b)[k.size..] == a[k.size..] + b;
      DecodeAppend(k.msg, a[k.size..], b, at + k.size);
    }
  }

  /** Where in a message a field starts matters to no successful parse of it. */
  lemma StepOffset(p: TokenPair, s: seq<byte>, at: nat, at': nat)
    requires at + |s| <= MAX_INT && at' + |s| <= MAX_INT
    requires Step(p, s, at).Ok?
    ensures Step(p, s, at') == Step(p, s, at)
  {
    hide TakeTag, SkipFrom, TakeVarint;
  }

  lemma {:induction false} DecodeOffset(p: TokenPair, s: seq<byte>, at: nat, at': nat)
    requires at + |s| <= MAX_INT && at' + |s| <= MAX_INT
    requires Decode(p, s, at).Ok?
    ensures Decode(p, s, at') == Decode(p, s, at)
    decreases |s|
  {
    hide Step;
    if s != [] {
      StepOffset(p, s, at, at');
      var k := Step(p, s, at).value;
      DecodeOffset(k.msg, s[k.size..], at + k.size, at' + k.size);
    }
  }

  // ----- round trip ---------------------------------------------------------

  lemma TakesFieldTag(num: FieldNumber, wire: nat, tag: byte, rest: seq<byte>)
    requires 1 <= num <= 15 && wire < 8 && wire != 4 && tag == num * 8 + wire
    ensures TakeFieldTag([tag] + rest) == Ok(Tag(num, wire, 1))
  {
    TakesTag(num, wire, rest);
    assert EncodeTag(num, wire) == [tag];
  }

  /** One round of the parser on a known field. */
  lemma DecodesField(p: TokenPair, num: FieldNumber, wire: nat, tag: byte, payload: seq<byte>, rest: seq<byte>, q: TokenPair, at: nat)
    requires num <= 4 && wire == (if num <= 2 then 2 else 0) && tag == num * 8 + wire
    requires at + 1 + |payload| + |rest| <= MAX_INT
    requires Merge(p, Tag(num, wire, 1), payload + rest, at + 1) == Ok(Stepped(q, 1 + |payload|))
    ensures Decode(p, [tag] + payload + rest, at) == Decode(q, rest, at + 1 + |payload|)
  {
    hide TakeFieldTag, Merge, TakeUnknown;
    var s := [tag] + payload + rest;
    assert s == [tag] + (payload + rest);
    TakesFieldTag(num, wire, tag, payload + rest);
    assert s[1..] == payload + rest;
    assert s[1 + |payload|..] == rest;
  }

  /** A string field present in the encoding sets its field and nothing else. */
  lemma StringField(p: TokenPair, num: FieldNumber, tag: byte, s: GoString, rest: seq<byte>, at: nat)
    requires num <= 2 && tag == num * 8 + 2
    requires at + |EncodeString(tag, s)| + |rest| <= MAX_INT
    ensures Decode(p, EncodeString(tag, s) + rest, at)
            == Decode(if s == [] then p else if num == 1 then p.(erc20Address := s) else p.(denom := s), rest,
                      at + |EncodeString(tag, s)|)
  {
    hide Decode, TakeChunk, Varint;
    if s == [] {
      assert EncodeString(tag, s) + rest == rest;
    } else {
      var q := if num == 1 then p.(erc20Address := s) else p.(denom := s);
      TakesChunk(s, rest, at + 1);
      DecodesField(p, num, 2, tag, Varint(|s|) + s, rest, q, at);
      assert EncodeString(tag, s) == [tag] + (Varint(|s|) + s);
    }
  }

  lemma FlagField(p: TokenPair, b: bool, rest: seq<byte>, at: nat)
    requires at + |EncodeBool(0x18, b)| + |rest| <= MAX_INT
    ensures Decode(p, EncodeBool(0x18, b) + rest, at)
            == Decode(if b then p.(enabled := true) else p, rest, at + |EncodeBool(0x18, b)|)
  {
    if b {
      DecodesField(p, 3, 0, 0x18, [1], rest, p.(enabled := true), at);
    } else {
      assert EncodeBool(0x18, b) + rest == rest;
    }
  }

  lemma OwnerField(p: TokenPair, owner: int32, rest: seq<byte>, at: nat)
    requires at + |EncodeOwner(owner)| + |rest| <= MAX_INT
    ensures Decode(p, EncodeOwner(owner) + rest, at)
            == Decode(if owner == 0 then p else p.(contractOwner := owner), rest, at + |EncodeOwner(owner)|)
  {
    hide Decode, TakeVarint, Varint;
    if owner == 0 {
      assert EncodeOwner(owner) + rest == rest;
    } else {
      var v := Uint64(owner);
      assert Int32(v) == owner;
      VarintRoundTrip(v, rest);
      DecodesField(p, 4, 0, 0x20, Varint(v), rest, p.(contractOwner := owner), at);
    }
  }

  /** `p` with the fields of `q` that are set. */
  function Overlay(p: TokenPair, q: TokenPair): TokenPair
  {
    TokenPair(if q.erc20Address == [] then p.erc20Address else q.erc20Address,
              if q.denom == [] then p.denom else q.denom,
              p.enabled || q.enabled,
              if q.contractOwner == 0 then p.contractOwner else q.contractOwner)
  }

  /** Unmarshalling an encoding into a message merges the fields that are set. */
  lemma DecodeMerges(p: TokenPair, q: TokenPair, at: nat)
    requires at + Size(q) <= MAX_INT
    ensures Decode(p, Encode(q), at) == Ok(Overlay(p, q))
  {
    hide EncodeString, EncodeBool, EncodeOwner, Step, Size;
    var f1, f2 := EncodeString(0x0a, q.erc20Address), EncodeString(0x12, q.denom);
    var f3, f4 := EncodeBool(0x18, q.enabled), EncodeOwner(q.contractOwner);
    var p1 := p.(erc20Address := Overlay(p, q).erc20Address);
    var p2 := p1.(denom := Overlay(p, q).denom);
    StringField(p, 1, 0x0a, q.erc20Address, f2 + (f3 + f4), at);
    StringField(p1, 2, 0x12, q.denom, f3 + f4, at + |f1|);
    FlagField(p2, q.enabled, f4, at + |f1| + |f2|);
    OwnerField(p2.(enabled := p.enabled || q.enabled), q.contractOwner, [], at + |f1| + |f2| + |f3|);
    assert f4 + [] == f4;
  }

  /** Unmarshal undoes Marshal, for any strings, flag and 32-bit owner. */
  lemma RoundTrip(p: TokenPair)
    requires Size(p) <= MAX_INT
    ensures Decode(EMPTY_PAIR, Encode(p), 0) == Ok(p)
  {
    hide Decode, Encode, Size;
    DecodeMerges(EMPTY_PAIR, p, 0);
  }

  /** Two encodings one after the other decode to the second laid over the first. */
  lemma ConcatenationMerges(p: TokenPair, q: TokenPair)
    requires Size(p) + Size(q) <= MAX_INT
    ensures Decode(EMPTY_PAIR, Encode(p) + Encode(q), 0) == Ok(Overlay(p, q))
  {
    hide Decode, Encode, Size;
    RoundTrip(p);
    DecodeAppend(EMPTY_PAIR, Encode(p), Encode(q), 0);
    DecodeMerges(p, q, |Encode(p)|);
  }

  /** No two pairs share an encoding. */
  lemma EncodeInjective(p: TokenPair, q: TokenPair)
    requires Size(p) <= MAX_INT && Encode(p) == Encode(q)
    ensures p == q
  {
    RoundTrip(p);
    RoundTrip(q);
  }

  // ----- unknown fields -----------------------------------------------------

  /** A byte string that is exactly one field with a number other than 1 to 4. */
  ghost predicate IsUnknownField(f: seq<byte>)
  {
    && 0 < |f| <= MAX_INT
    && TakeFieldTag(f).Ok?
    && TakeFieldTag(f).value.num > 4
    && SkipFrom(f, 0, 0) == Ok(|f|)
  }

  lemma IgnoresUnknown(p: TokenPair, f: seq<byte>, rest: seq<byte>, at: nat)
    requires IsUnknownField(f) && at + |f| + |rest| <= MAX_INT
    ensures Decode(p, f + rest, at) == Decode(p, rest, at + |f|)
  {
    hide TakeTag, SkipFrom;
    TakeTagLocal(f, rest);
    SkipLocal(f, rest, 0, 0);
    assert (f + rest)[|f|..] == rest;
  }

  /**
   An unknown field at a field boundary changes nothing: the message with it decodes
   exactly when the message without it does, and to the same pair.
   */
  lemma UnknownFieldInsensitive(a: seq<byte>, f: seq<byte>, b: seq<byte>, p: TokenPair)
    requires |a| + |f| + |b| <= MAX_INT
    requires IsUnknownField(f)
    requires Decode(EMPTY_PAIR, a, 0).Ok?
    ensures Decode(EMPTY_PAIR, a + f + b, 0) == Ok(p) <==> Decode(EMPTY_PAIR, a + b, 0) == Ok(p)
  {
    hide Decode, IsUnknownField;
    var q := Decode(EMPTY_PAIR, a, 0).value;
    assert a + f + b == a + (f + b);
    assert |f + b| == |f| + |b|;
    DecodeAppend(EMPTY_PAIR, a, f + b, 0);
    IgnoresUnknown(q, f, b, |a|);
    DecodeAppend(EMPTY_PAIR, a, b, 0);
    var at, at' := |a|, |a| + |f|;
    if Decode(q, b, at).Ok? {
      DecodeOffset(q, b, at, at');
    }
    if Decode(q, b, at').Ok? {
      DecodeOffset(q, b, at', at);
    }
  }

  /** Any well-formed field, groups nested to any depth, numbered above 4 is such a field. */
  lemma WellFormedIsUnknown(f: Field)
    requires WellFormed(f) && Number(f) > 4 && |Text(f)| <= MAX_INT
    ensures IsUnknownField(Text(f))
  {
    hide SkipFrom, TakeTag, IsTag;
    SkipsField(f, [], 0, 0);
    var s := Text(f);
    assert s + [] == s;
    assert s == f.tag + s[|f.tag|..];
    TakesAnyTag(f.tag, WireType(f), s[|f.tag|..]);
  }

  /** And there are no others. */
  lemma UnknownIsWellFormed(b: seq<byte>) returns (f: Field)
    requires IsUnknownField(b)
    ensures WellFormed(f) && Number(f) > 4 && Text(f) == b
  {
    f := ReadsField(b, |b|, 0);
    assert b[..|b|] == b;
    hide SkipFrom, TakeTag, IsTag;
    assert b == f.tag + b[|f.tag|..];
    TakesAnyTag(f.tag, WireType(f), b[|f.tag|..]);
  }
}
