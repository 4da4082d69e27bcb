/** Why a parse fails: which error belongs to which bytes (x/erc20/types/erc20.pb.go). */
module WireErrors {
  import opened GoInts
  import opened Varints
  import opened Wire
  import opened TokenPairs
  import C = TokenPairCodec

  /** The first `n` bytes are all flagged as having a successor. */
  ghost predicate AllFlagged(s: seq<byte>, n: nat)
  {
    n <= |s| && forall i :: 0 <= i < n ==> s[i] >= 128
  }

  /** A varint is too long if ten bytes do not end it, and cut off if the input ends before it does. */
  lemma {:induction false} VarintErrors(s: seq<byte>, k: nat)
    requires k <= 10
    ensures TakeVarint(s, k) == Err(IntOverflow) <==> AllFlagged(s, 10 - k)
    ensures TakeVarint(s, k) == Err(UnexpectedEOF) <==> |s| < 10 - k && AllFlagged(s, |s|)
    ensures TakeVarint(s, k).Err? ==> TakeVarint(s, k).error in {IntOverflow, UnexpectedEOF}
    decreases |s|
  {
    if k < 10 && s != [] && s[0] >= 128 {
      var t := s[1..];
      VarintErrors(t, k + 1);
      assert forall n: nat :: AllFlagged(s, n + 1) <==> AllFlagged(t, n) by {
        forall n: nat
          ensures AllFlagged(s, n + 1) <==> AllFlagged(t, n)
        {
          if AllFlagged(t, n) {
            forall i | 0 <= i < n + 1
              ensures s[i] >= 128
            {
              assert i > 0 ==> s[i] == t[i - 1];
            }
          }
        }
      }
      assert AllFlagged(s, 10 - k - 1 + 1) <==> AllFlagged(t, 10 - k - 1);
      assert AllFlagged(s, |t| + 1) <==> AllFlagged(t, |t|);
    }
  }

  /** A length is invalid if it is negative as a 64-bit number or leads beyond the largest index; else too long if it leads beyond the input. */
  lemma ChunkErrors(s: seq<byte>, at: nat)
    requires at + |s| <= MAX_INT && TakeVarint(s, 0).Ok?
    ensures var t := TakeVarint(s, 0).value; var v := t.value % 0x1_0000_0000_0000_0000;
            && (TakeChunk(s, at) == Err(InvalidLength) <==> v > MAX_INT || at + t.size + v > MAX_INT)
            && (TakeChunk(s, at) == Err(UnexpectedEOF) <==> v <= MAX_INT && at + t.size + v <= MAX_INT && t.size + v > |s|)
            && (TakeChunk(s, at).Err? ==> TakeChunk(s, at).error in {InvalidLength, UnexpectedEOF})
  {
    hide TakeVarint;
    var t := TakeVarint(s, 0).value;
    UintThenSigned(t.value);
  }

  /** A field is refused for an end-group tag, a number that is not positive, or a known number with the wrong wire type. */
  lemma FieldErrors(p: TokenPair, s: seq<byte>, at: nat)
    requires at + |s| <= MAX_INT && TakeTag(s).Ok?
    ensures var t := TakeTag(s).value;
            && (C.Step(p, s, at) == Err(EndGroupTag) <==> t.wire == 4)
            && (C.Step(p, s, at) == Err(IllegalTag) <==> t.wire != 4 && t.num <= 0)
            && (C.Step(p, s, at) == Err(WrongWireType)
                <==> t.wire != 4 && ((1 <= t.num <= 2 && t.wire != 2) || (3 <= t.num <= 4 && t.wire != 0)))
  {
    hide TakeTag, TakeChunk, TakeVarint, SkipFrom;
    var t := TakeTag(s).value;
    if t.wire != 4 && t.num > 4 {
      SkipErrors(s, 0, 0);
    } else if t.wire != 4 && t.num > 2 {
      PayloadErrors(s[t.size..]);
    } else if t.wire != 4 && t.num > 0 {
      ChunkErrorKinds(s[t.size..], at + t.size);
    }
  }

  lemma PayloadErrors(s: seq<byte>)
    ensures TakeVarint(s, 0).Err? ==> TakeVarint(s, 0).error in {IntOverflow, UnexpectedEOF}
  {
    VarintErrors(s, 0);
  }

  lemma ChunkErrorKinds(s: seq<byte>, at: nat)
    requires at + |s| <= MAX_INT
    ensures TakeChunk(s, at).Err? ==> TakeChunk(s, at).error in {IntOverflow, InvalidLength, UnexpectedEOF}
  {
    hide TakeVarint;
    PayloadErrors(s);
  }

  /** A round of the skipper is refused for an end-group tag without a group, or an unknown wire type. */
  lemma SkipStepErrors(s: seq<byte>, at: nat, depth: nat)
    requires at + |s| <= MAX_INT && TakeTag(s).Ok?
    ensures var t := TakeTag(s).value;
            && (SkipStep(s, at, depth) == Err(UnexpectedEndOfGroup) <==> t.wire == 4 && depth == 0)
            && (SkipStep(s, at, depth) == Err(IllegalWireType) <==> t.wire >= 6)
  {
    hide TakeTag, TakeVarint;
    PayloadErrors(s[TakeTag(s).value.size..]);
  }

  lemma {:induction false} SkipErrors(s: seq<byte>, at: nat, depth: nat)
    requires at + |s| <= MAX_INT
    ensures SkipFrom(s, at, depth).Err? ==>
              SkipFrom(s, at, depth).error in {IntOverflow, UnexpectedEOF, InvalidLength, UnexpectedEndOfGroup, IllegalWireType}
    decreases |s|
  {
    hide SkipStep;
    if s != [] {
      StepErrorKinds(s, at, depth);
      if SkipStep(s, at, depth).Ok? {
        var k := SkipStep(s, at, depth).value;
        if k.open != 0 && k.next - at < |s| {
          SkipErrors(s[k.next - at..], k.next, k.open);
        }
      }
    }
  }

  lemma StepErrorKinds(s: seq<byte>, at: nat, depth: nat)
    requires at + |s| <= MAX_INT
    ensures SkipStep(s, at, depth).Err? ==>
              SkipStep(s, at, depth).error in {IntOverflow, UnexpectedEOF, InvalidLength, UnexpectedEndOfGroup, IllegalWireType}
  {
    hide TakeVarint;
    PayloadErrors(s);
    if TakeTag(s).Ok? {
      PayloadErrors(s[TakeTag(s).value.size..]);
    }
  }
}
