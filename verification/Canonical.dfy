/**
 The bytes the writers write, among all that the readers accept: fields in ascending order,
 numbers in their shortest spelling, no field that says nothing
 (x/erc20/types/erc20.pb.go, x/erc20/types/genesis.pb.go).
 */
module Canonical {
  import opened GoInts
  import opened Varints
  import opened UnknownFields
  import opened TokenPairs
  import C = TokenPairCodec
  import L = TokenPairCodecLaws
  import G = GenesisCodec
  import GL = GenesisCodecLaws

  // ----- numbers ------------------------------------------------------------

  /** The shortest spelling of `v`: no leading zero, that is, no zero in the last place. */
  ghost predicate Shortest(b: seq<byte>, v: nat)
  {
    IsVarint(b) && Value(b) == v && (|b| > 1 ==> b[|b| - 1] != 0)
  }

  lemma {:induction false} ShortestDigits(b: seq<byte>, n: nat)
    requires IsDigits(b, n) && (|b| > 1 ==> b[|b| - 1] != 0)
    ensures b == Varint(Value(b)) && (b[|b| - 1] != 0 ==> Value(b) > 0)
    decreases |b|
  {
    if |b| == 1 {
      assert Value(b[1..]) == 0;
      assert b == [b[0]];
    } else {
      var rest := b[1..];
      assert rest[|rest| - 1] == b[|b| - 1];
      ShortestDigits(rest, n - 1);
      assert b == [b[0]] + rest;
      NextDigitFirst(b[0], Value(rest));
    }
  }

  lemma NextDigitFirst(x: byte, v: nat)
    requires x >= 128 && v > 0
    ensures Varint(x % 128 + 128 * v) == [x] + Varint(v)
  {
    var w := x % 128 + 128 * v;
    assert w % 128 + 128 == x && w / 128 == v;
  }

  lemma {:induction false} VarintDigits(v: nat, k: nat)
    requires 1 <= k && v < Pow128(k)
    ensures IsDigits(Varint(v), k) && Value(Varint(v)) == v && (v > 0 ==> Varint(v)[|Varint(v)| - 1] != 0)
    decreases v
  {
    var b := Varint(v);
    if v < 128 {
      assert b[1..] == [];
      assert Value([]) == 0;
    } else {
      assert Pow128(k) == 128 * Pow128(k - 1);
      assert k > 1 by { assert Pow128(0) == 1; }
      VarintDigits(v / 128, k - 1);
      assert b[1..] == Varint(v / 128);
    }
  }

  /** A spelling is the shortest exactly if it is the writer's. */
  lemma ShortestIff(b: seq<byte>, v: uint64)
    ensures Shortest(b, v) <==> b == Varint(v)
  {
    if Shortest(b, v) {
      ShortestDigits(b, 10);
    }
    Pow128Ten();
    VarintDigits(v, 10);
    if v == 0 {
      assert Varint(v) == [0];
    }
  }

  // ----- single fields ------------------------------------------------------

  /** A string, set. */
  ghost predicate CanonicalString(f: Field, n: nat)
  {
    f.BytesField? && Shortest(f.tag, n * 8 + 2) && Shortest(f.length, |f.data|) && f.data != []
  }

  /** A flag, set: the number one. */
  ghost predicate CanonicalFlag(f: Field, n: nat)
  {
    f.VarintField? && Shortest(f.tag, n * 8) && Shortest(f.v, 1)
  }

  /** A 32-bit number, set; a negative one extended to 64 bits. */
  ghost predicate CanonicalEnum(f: Field, n: nat)
  {
    && f.VarintField? && Shortest(f.tag, n * 8)
    && Shortest(f.v, Value(f.v))
    && (0 < Value(f.v) < 0x8000_0000 || 0xFFFF_FFFF_8000_0000 <= Value(f.v) < 0x1_0000_0000_0000_0000)
  }

  /** A nested message, possibly empty. */
  ghost predicate CanonicalMessage(f: Field, n: nat)
  {
    f.BytesField? && Shortest(f.tag, n * 8 + 2) && Shortest(f.length, |f.data|)
  }

  lemma TagText(tag: seq<byte>, v: byte)
    requires v < 128
    ensures Shortest(tag, v) <==> tag == [v]
  {
    ShortestIff(tag, v);
  }

  lemma MessageText(f: Field, n: nat)
    requires f.BytesField? && n < 15 && |f.data| <= MAX_INT
    ensures CanonicalMessage(f, n) <==> f == BytesField([n * 8 + 2], Varint(|f.data|), f.data)
    ensures CanonicalMessage(f, n) ==> Text(f) == Prefixed(n * 8 + 2, f.data)
  {
    hide Shortest, Varint;
    TagText(f.tag, n * 8 + 2);
    ShortestIff(f.length, |f.data|);
  }

  lemma FlagText(f: Field, n: nat)
    requires f.VarintField? && n < 16
    ensures CanonicalFlag(f, n) <==> f == VarintField([n * 8], [1])
  {
    hide Shortest;
    TagText(f.tag, n * 8);
    TagText(f.v, 1);
  }

  lemma EnumText(f: Field, n: nat, owner: int32)
    requires f.VarintField? && n < 16 && owner != 0
    ensures CanonicalEnum(f, n) && Value(f.v) == Uint64(owner) <==> f == VarintField([n * 8], Varint(Uint64(owner)))
  {
    hide Varint, Value, IsDigits;
    TagText(f.tag, n * 8);
    ShortestIff(f.v, Uint64(owner));
    if f.v == Varint(Uint64(owner)) {
      assert Value(f.v) == Uint64(owner);
    }
  }

  /** The 32-bit number a canonical field stands for. */
  lemma EnumOwner(f: Field, n: nat) returns (owner: int32)
    requires CanonicalEnum(f, n)
    ensures owner != 0 && Value(f.v) == Uint64(owner)
  {
    owner := if Value(f.v) < 0x8000_0000 then Value(f.v) else Value(f.v) - 0x1_0000_0000_0000_0000;
  }

  // ----- sequences of fields ------------------------------------------------

  datatype Message = PairMessage | ParamsMessage

  /** The form of field `n` of a message: two strings, a flag and an enum, or two flags. */
  ghost predicate CanonicalField(k: Message, f: Field, n: nat)
  {
    match k
    case PairMessage =>
      1 <= n <= 4 && if n <= 2 then CanonicalString(f, n) else if n == 3 then CanonicalFlag(f, n) else CanonicalEnum(f, n)
    case ParamsMessage => 1 <= n <= 2 && CanonicalFlag(f, n)
  }

  /** Fields from number `n` on, each at most once, in ascending order. */
  ghost predicate CanonicalFrom(k: Message, fs: seq<Field>, n: nat)
    decreases |fs|
  {
    fs == [] || (Number(fs[0]) >= n && CanonicalField(k, fs[0], Number(fs[0])) && CanonicalFrom(k, fs[1..], Number(fs[0]) + 1))
  }

  ghost predicate CanonicalPair(fs: seq<Field>)
  {
    CanonicalFrom(PairMessage, fs, 1)
  }

  ghost predicate CanonicalParams(fs: seq<Field>)
  {
    CanonicalFrom(ParamsMessage, fs, 1)
  }

  lemma NumberOf(f: Field, n: nat, wire: nat)
    requires wire < 8 && 1 <= n < 16 && Shortest(f.tag, n * 8 + wire)
    ensures Number(f) == n
  {
  }

  /** Field `n`, if it is there, and the fields after it. */
  lemma Head(k: Message, fs: seq<Field>, n: nat) returns (h: seq<Field>, rest: seq<Field>)
    requires CanonicalFrom(k, fs, n)
    ensures |h| <= 1 && (h != [] ==> CanonicalField(k, h[0], n))
    ensures CanonicalFrom(k, rest, n + 1)
    ensures Texts(fs) == Texts(h) + Texts(rest)
  {
    hide Number, CanonicalField, Texts;
    if fs != [] && Number(fs[0]) == n {
      h, rest := fs[..1], fs[1..];
    } else {
      h, rest := [], fs;
    }
    assert fs == h + rest;
    TextsAppend(h, rest);
  }

  lemma NoneLeft(k: Message, fs: seq<Field>, n: nat)
    requires CanonicalFrom(k, fs, n) && n > (if k == PairMessage then 4 else 2)
    ensures fs == []
  {
    hide Number;
  }

  /** Field `n` before fields of higher numbers. */
  lemma Before(k: Message, h: seq<Field>, rest: seq<Field>, n: nat)
    requires |h| <= 1 && (h != [] ==> Number(h[0]) == n && CanonicalField(k, h[0], n))
    requires CanonicalFrom(k, rest, n + 1)
    ensures CanonicalFrom(k, h + rest, n)
    ensures Texts(h + rest) == Texts(h) + Texts(rest)
  {
    hide Number, CanonicalField, Texts;
    TextsAppend(h, rest);
    if h == [] {
      assert h + rest == rest;
    } else {
      assert (h + rest)[0] == h[0] && (h + rest)[1..] == rest;
    }
  }

  // ----- TokenPair ----------------------------------------------------------

  lemma OneText(f: Field)
    ensures Texts([f]) == Text(f)
  {
    assert [f][1..] == [];
    assert Texts([]) == [];
  }

  lemma StringPart(h: seq<Field>, n: nat) returns (s: GoString)
    requires |h| <= 1 && 1 <= n <= 2 && (h != [] ==> CanonicalString(h[0], n) && |h[0].data| <= MAX_INT)
    ensures Texts(h) == C.EncodeString(n * 8 + 2, s)
  {
    hide Shortest, Prefixed;
    if h == [] {
      s := [];
    } else {
      s := h[0].data;
      MessageText(h[0], n);
      OneText(h[0]);
      assert h == [h[0]];
    }
  }

  lemma FlagPart(h: seq<Field>, n: nat, tag: byte) returns (b: bool)
    requires |h| <= 1 && n < 16 && tag == n * 8 && (h != [] ==> CanonicalFlag(h[0], n))
    ensures Texts(h) == C.EncodeBool(tag, b)
  {
    hide CanonicalFlag;
    b := h != [];
    if b {
      assert h[0].VarintField? by { FlagKind(h[0], n); }
      FlagText(h[0], n);
      OneText(h[0]);
      assert h == [h[0]];
    }
  }

  lemma FlagKind(f: Field, n: nat)
    requires CanonicalFlag(f, n)
    ensures f.VarintField?
  {
  }

  lemma EnumPart(h: seq<Field>) returns (owner: int32)
    requires |h| <= 1 && (h != [] ==> CanonicalEnum(h[0], 4))
    ensures Texts(h) == C.EncodeOwner(owner)
  {
    hide Shortest, Varint, Value;
    if h == [] {
      owner := 0;
    } else {
      owner := EnumOwner(h[0], 4);
      EnumText(h[0], 4, owner);
      OneText(h[0]);
      assert h == [h[0]];
    }
  }

  lemma DataFits(fs: seq<Field>, f: Field)
    requires f in fs && f.BytesField?
    ensures |f.data| <= |Texts(fs)|
    decreases |fs|
  {
    if f != fs[0] {
      DataFits(fs[1..], f);
    }
  }

  lemma StringHead(fs: seq<Field>, n: nat) returns (s: GoString, rest: seq<Field>)
    requires CanonicalFrom(PairMessage, fs, n) && 1 <= n <= 2 && |Texts(fs)| <= MAX_INT
    ensures CanonicalFrom(PairMessage, rest, n + 1) && Texts(fs) == C.EncodeString(n * 8 + 2, s) + Texts(rest)
  {
    hide CanonicalFrom, Shortest, Texts;
    var h;
    h, rest := Head(PairMessage, fs, n);
    if h != [] {
      DataFits(h, h[0]);
    }
    s := StringPart(h, n);
  }

  lemma LastTwo(fs: seq<Field>) returns (b: bool, o: int32)
    requires CanonicalFrom(PairMessage, fs, 3)
    ensures Texts(fs) == C.EncodeBool(0x18, b) + C.EncodeOwner(o)
  {
    hide CanonicalFrom, CanonicalFlag, CanonicalEnum, C.EncodeBool, C.EncodeOwner, Texts;
    var h3, r3 := Head(PairMessage, fs, 3);
    var h4, r4 := Head(PairMessage, r3, 4);
    b := FlagPart(h3, 3, 0x18);
    o := EnumPart(h4);
    NoneLeft(PairMessage, r4, 5);
    NoText();
    assert Texts(h4) + [] == Texts(h4);
  }

  /** Every canonical sequence of fields is some pair's encoding. */
  lemma CanonicalIsEncoded(fs: seq<Field>) returns (p: TokenPair)
    requires CanonicalPair(fs) && |Texts(fs)| <= MAX_INT
    ensures C.Encode(p) == Texts(fs)
  {
    hide CanonicalFrom, C.EncodeString, C.EncodeBool, C.EncodeOwner, Texts;
    var a, r1 := StringHead(fs, 1);
    var d, r2 := StringHead(r1, 2);
    var b, o := LastTwo(r2);
    p := TokenPair(a, d, b, o);
  }

  lemma NoText()
    ensures Texts([]) == []
  {
  }

  // ----- and every encoding is canonical

  lemma StringFields(s: GoString, n: nat) returns (h: seq<Field>)
    requires 1 <= n <= 2 && |s| <= MAX_INT
    ensures |h| <= 1 && Texts(h) == C.EncodeString(n * 8 + 2, s)
    ensures h != [] ==> CanonicalString(h[0], n) && Number(h[0]) == n
  {
    hide Shortest, Prefixed, Number;
    if s == [] {
      h := [];
    } else {
      var f := BytesField([n * 8 + 2], Varint(|s|), s);
      MessageText(f, n);
      NumberOf(f, n, 2);
      OneText(f);
      h := [f];
    }
  }

  lemma FlagFields(b: bool, n: nat, tag: byte) returns (h: seq<Field>)
    requires 1 <= n < 16 && tag == n * 8
    ensures |h| <= 1 && Texts(h) == C.EncodeBool(tag, b)
    ensures h != [] ==> CanonicalFlag(h[0], n) && Number(h[0]) == n
  {
    hide Shortest, Number;
    if b {
      var f := VarintField([tag], [1]);
      FlagText(f, n);
      NumberOf(f, n, 0);
      OneText(f);
      h := [f];
    } else {
      h := [];
    }
  }

  lemma EnumFields(owner: int32) returns (h: seq<Field>)
    ensures |h| <= 1 && Texts(h) == C.EncodeOwner(owner)
    ensures h != [] ==> CanonicalEnum(h[0], 4) && Number(h[0]) == 4 && Value(h[0].v) == Uint64(owner)
  {
    hide Shortest, Number, Varint, Value;
    if owner == 0 {
      h := [];
    } else {
      var f := VarintField([0x20], Varint(Uint64(owner)));
      EnumText(f, 4, owner);
      NumberOf(f, 4, 0);
      OneText(f);
      h := [f];
    }
  }

  lemma FirstTwo(p: TokenPair, rest: seq<Field>) returns (fs: seq<Field>)
    requires |p.erc20Address| <= MAX_INT && |p.denom| <= MAX_INT && CanonicalFrom(PairMessage, rest, 3)
    ensures CanonicalPair(fs)
    ensures Texts(fs) == C.EncodeString(0x0a, p.erc20Address) + (C.EncodeString(0x12, p.denom) + Texts(rest))
  {
    hide CanonicalString, CanonicalFrom, Number, Texts, C.EncodeString;
    var h1 := StringFields(p.erc20Address, 1);
    var h2 := StringFields(p.denom, 2);
    Before(PairMessage, h2, rest, 2);
    var r1 := h2 + rest;
    Before(PairMessage, h1, r1, 1);
    fs := h1 + r1;
  }

  lemma FlagAndOwner(p: TokenPair) returns (fs: seq<Field>)
    ensures CanonicalFrom(PairMessage, fs, 3)
    ensures Texts(fs) == C.EncodeBool(0x18, p.enabled) + C.EncodeOwner(p.contractOwner)
  {
    hide CanonicalFlag, CanonicalEnum, CanonicalFrom, Number, Texts, Value, C.EncodeBool, C.EncodeOwner;
    var h3 := FlagFields(p.enabled, 3, 0x18);
    var h4 := EnumFields(p.contractOwner);
    NoFields(PairMessage, 5);
    Before(PairMessage, h4, [], 4);
    var r3 := h4 + [];
    Before(PairMessage, h3, r3, 3);
    fs := h3 + r3;
    assert Texts(h4) + [] == Texts(h4);
  }

  lemma EncodedIsCanonical(p: TokenPair) returns (fs: seq<Field>)
    requires C.Size(p) <= MAX_INT
    ensures CanonicalPair(fs) && Texts(fs) == C.Encode(p)
  {
    hide CanonicalPair, CanonicalFrom, Texts, C.EncodeString, C.EncodeBool, C.EncodeOwner;
    var rest := FlagAndOwner(p);
    fs := FirstTwo(p, rest);
  }

  lemma NoFields(k: Message, n: nat)
    ensures CanonicalFrom(k, [], n) && Texts([]) == []
  {
  }

  /**
   Marshal writes the canonical bytes: of all byte strings, the encoding of `p` is the only one
   in canonical form that Unmarshal reads as `p`.
   */
  lemma PairIsCanonical(p: TokenPair, s: seq<byte>)
    requires |s| <= MAX_INT
    ensures s == C.Encode(p) <==> (exists fs :: CanonicalPair(fs) && Texts(fs) == s) && C.Decode(EMPTY_PAIR, s, 0) == Varints.Ok(p)
  {
    hide CanonicalPair, C.Decode, C.Encode, C.Size;
    if s == C.Encode(p) {
      assert C.Size(p) == |s|;
      var fs := EncodedIsCanonical(p);
      L.RoundTrip(p);
    } else if exists fs :: CanonicalPair(fs) && Texts(fs) == s {
      var fs :| CanonicalPair(fs) && Texts(fs) == s;
      var q := CanonicalIsEncoded(fs);
      assert C.Size(q) == |s|;
      L.RoundTrip(q);
    }
  }

  // ----- Params -------------------------------------------------------------

  lemma ParamsAreEncoded(fs: seq<Field>) returns (p: G.Params)
    requires CanonicalParams(fs)
    ensures G.EncodeParams(p) == Texts(fs)
  {
    hide CanonicalFrom, CanonicalFlag, C.EncodeBool;
    var h1, r1 := Head(ParamsMessage, fs, 1);
    var h2, r2 := Head(ParamsMessage, r1, 2);
    var a := FlagPart(h1, 1, 0x08);
    var b := FlagPart(h2, 2, 0x10);
    NoneLeft(ParamsMessage, r2, 3);
    hide Texts;
    p := G.Params(a, b);
    assert Texts(r2) == [] by { NoText(); }
    assert Texts(h2) + [] == Texts(h2);
  }

  lemma EncodedParams(p: G.Params) returns (fs: seq<Field>)
    ensures CanonicalParams(fs) && Texts(fs) == G.EncodeParams(p)
  {
    hide CanonicalFlag, CanonicalFrom, Number, Texts, C.EncodeBool;
    var h1 := FlagFields(p.enableErc20, 1, 0x08);
    var h2 := FlagFields(p.enableEVMHook, 2, 0x10);
    NoFields(ParamsMessage, 3);
    Before(ParamsMessage, h2, [], 2);
    Before(ParamsMessage, h1, h2 + [], 1);
    fs := h1 + (h2 + []);
    assert Texts(h2) + [] == Texts(h2);
  }

  lemma ParamsAreCanonical(p: G.Params, s: seq<byte>)
    requires |s| <= MAX_INT
    ensures s == G.EncodeParams(p)
            <==> (exists fs :: CanonicalParams(fs) && Texts(fs) == s) && G.DecodeParams(G.EMPTY_PARAMS, s, 0) == Varints.Ok(p)
  {
    hide CanonicalParams, G.DecodeParams, G.EncodeParams;
    if s == G.EncodeParams(p) {
      var fs := EncodedParams(p);
      GL.ParamsRoundTrip(p);
    } else if exists fs :: CanonicalParams(fs) && Texts(fs) == s {
      var fs :| CanonicalParams(fs) && Texts(fs) == s;
      var q := ParamsAreEncoded(fs);
      GL.ParamsRoundTrip(q);
    }
  }

  // ----- GenesisState -------------------------------------------------------

  /** The bytes of a canonical pair. */
  ghost predicate PairText(s: seq<byte>)
  {
    exists fs :: CanonicalPair(fs) && Texts(fs) == s
  }

  ghost predicate ParamsText(s: seq<byte>)
  {
    exists fs :: CanonicalParams(fs) && Texts(fs) == s
  }

  /** The parameters, always present, and then the pairs. */
  ghost predicate CanonicalState(fs: seq<Field>)
  {
    && fs != []
    && CanonicalMessage(fs[0], 1) && ParamsText(fs[0].data)
    && forall f :: f in fs[1..] ==> CanonicalMessage(f, 2) && PairText(f.data)
  }

  lemma {:induction false} PairsAreEncoded(fs: seq<Field>) returns (ps: seq<TokenPair>)
    requires |Texts(fs)| <= MAX_INT && forall f :: f in fs ==> CanonicalMessage(f, 2) && PairText(f.data)
    ensures G.EncodePairs(ps) == Texts(fs)
    decreases |fs|
  {
    hide CanonicalMessage, PairText, Prefixed;
    if fs == [] {
      ps := [];
    } else {
      var f := fs[0];
      assert f in fs;
      assert f.BytesField? by { MessageKind(f, 2); }
      DataFits(fs, f);
      var p := OnePair(f);
      var rest := PairsAreEncoded(fs[1..]);
      ps := [p] + rest;
      assert ps[1..] == rest;
    }
  }

  lemma MessageKind(f: Field, n: nat)
    requires CanonicalMessage(f, n)
    ensures f.BytesField?
  {
  }

  lemma OnePair(f: Field) returns (p: TokenPair)
    requires CanonicalMessage(f, 2) && PairText(f.data) && |f.data| <= MAX_INT
    ensures Text(f) == Prefixed(0x12, C.Encode(p))
  {
    hide Shortest, CanonicalPair, Prefixed, C.Encode;
    var fs :| CanonicalPair(fs) && Texts(fs) == f.data;
    p := CanonicalIsEncoded(fs);
    MessageText(f, 2);
  }

  lemma {:induction false} EncodedPairs(ps: seq<TokenPair>) returns (fs: seq<Field>)
    requires |G.EncodePairs(ps)| <= MAX_INT
    ensures Texts(fs) == G.EncodePairs(ps) && forall f :: f in fs ==> CanonicalMessage(f, 2) && PairText(f.data)
    decreases |ps|
  {
    hide CanonicalMessage, PairText, C.Encode, Text, CanonicalPair;
    if ps == [] {
      fs := [];
    } else {
      var f := MessageOf(C.Encode(ps[0]), 2);
      var gs := EncodedIsCanonical(ps[0]);
      assert PairText(f.data) by { SaidBy(gs, f.data); }
      var rest := EncodedPairs(ps[1..]);
      fs := [f] + rest;
      assert fs[1..] == rest;
    }
  }

  lemma SaidBy(fs: seq<Field>, s: seq<byte>)
    requires CanonicalPair(fs) && Texts(fs) == s
    ensures PairText(s)
  {
  }

  lemma MessageOf(data: seq<byte>, n: nat) returns (f: Field)
    requires 1 <= n < 15 && |data| <= MAX_INT
    ensures f.BytesField? && f.data == data && CanonicalMessage(f, n) && Text(f) == Prefixed(n * 8 + 2, data)
  {
    hide Shortest, Prefixed;
    f := BytesField([n * 8 + 2], Varint(|data|), data);
    MessageText(f, n);
  }

  lemma StateIsEncoded(fs: seq<Field>) returns (gs: G.GenesisState)
    requires CanonicalState(fs) && |Texts(fs)| <= MAX_INT
    ensures G.Encode(gs) == Texts(fs)
  {
    hide CanonicalMessage, CanonicalParams, PairText, Prefixed;
    var f := fs[0];
    assert f.BytesField? by { MessageKind(f, 1); }
    DataFits(fs, f);
    var ps :| CanonicalParams(ps) && Texts(ps) == f.data;
    var params := ParamsAreEncoded(ps);
    MessageText(f, 1);
    var pairs := PairsAreEncoded(fs[1..]);
    gs := G.GenesisState(params, pairs);
  }

  lemma EncodedState(gs: G.GenesisState) returns (fs: seq<Field>)
    requires |G.Encode(gs)| <= MAX_INT
    ensures CanonicalState(fs) && Texts(fs) == G.Encode(gs)
  {
    hide CanonicalMessage, PairText, Text, CanonicalParams;
    var f := MessageOf(G.EncodeParams(gs.params), 1);
    var ps := EncodedParams(gs.params);
    var rest := EncodedPairs(gs.tokenPairs);
    fs := [f] + rest;
    assert fs[1..] == rest && fs[0] == f;
  }

  /** Likewise for the genesis state: the only canonical bytes that are read as `gs` are its encoding. */
  lemma StateIsCanonical(gs: G.GenesisState, s: seq<byte>)
    requires |s| <= MAX_INT
    ensures s == G.Encode(gs)
            <==> (exists fs :: CanonicalState(fs) && Texts(fs) == s) && G.Decode(G.EMPTY_STATE, s, 0) == Varints.Ok(gs)
  {
    hide CanonicalState, G.Decode, G.Encode;
    if s == G.Encode(gs) {
      var fs := EncodedState(gs);
      GL.RoundTrip(gs);
    } else if exists fs :: CanonicalState(fs) && Texts(fs) == s {
      var fs :| CanonicalState(fs) && Texts(fs) == s;
      var q := StateIsEncoded(fs);
      GL.RoundTrip(q);
    }
  }
}
