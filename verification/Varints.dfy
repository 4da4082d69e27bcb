/**
 Base 128 varints: the encoder that writes a buffer in place, the size function
 it relies on and the 7-bit decoding loops (x/erc20/types/erc20.pb.go).
 */
module Varints {
  import opened GoInts

  datatype Error =
    | IntOverflow
    | UnexpectedEOF
    | InvalidLength
    | EndGroupTag
    | IllegalTag
    | WrongWireType
    | UnexpectedEndOfGroup
    | IllegalWireType

  datatype Result<+T> = Ok(value: T) | Err(error: Error)

  /** A varint at the head of a byte string: its digits' value and its length. */
  datatype Read = Read(value: nat, size: nat)

  // ----- specification ------------------------------------------------------

  /** The base-128 digits of `v`, least significant first, all but the last flagged. */
  function Varint(v: nat): (s: seq<byte>)
    ensures |s| >= 1
  {
    if v < 128 then [v] else [v % 128 + 128] + Varint(v / 128)
  }

  /**
   What a varint at the head of `s` denotes when `k` of the at most ten
   permitted bytes are already used up.
   */
  function TakeVarint(s: seq<byte>, k: nat): (r: Result<Read>)
    ensures r.Ok? ==> 1 <= r.value.size <= |s|
    decreases |s|
  {
    if k >= 10 then Err(IntOverflow)
    else if s == [] then Err(UnexpectedEOF)
    else if s[0] < 128 then Ok(Read(s[0], 1))
    else
      match TakeVarint(s[1..], k + 1)
      case Err(e) => Err(e)
      case Ok(r) => Ok(Read(s[0] - 128 + 128 * r.value, r.size + 1))
  }

  function Pow128(k: nat): (p: nat)
    ensures p >= 1
  {
    if k == 0 then 1 else 128 * Pow128(k - 1)
  }

  lemma Pow128Ten()
    ensures Pow128(10) == 0x40_0000_0000_0000_0000
  {
    assert Pow128(4) == 0x1000_0000;
    assert Pow128(7) == 0x2_0000_0000_0000;
  }

  /** A varint that fits the bytes left is read back, whatever follows it. */
  lemma {:induction false} TakesVarint(v: nat, rest: seq<byte>, k: nat)
    requires k < 10 && v < Pow128(10 - k)
    ensures TakeVarint(Varint(v) + rest, k) == Ok(Read(v, |Varint(v)|))
    decreases v
  {
    var s := Varint(v) + rest;
    if v >= 128 {
      assert s[1..] == Varint(v / 128) + rest;
      TakesVarint(v / 128, rest, k + 1);
    }
  }

  /** Every 64-bit value is read back by the decoding loop. */
  lemma VarintRoundTrip(v: uint64, rest: seq<byte>)
    ensures TakeVarint(Varint(v) + rest, 0) == Ok(Read(v, |Varint(v)|))
  {
    Pow128Ten();
    TakesVarint(v, rest, 0);
  }

  /** A varint read succeeds or fails on its own bytes alone. */
  lemma {:induction false} TakeVarintLocal(s: seq<byte>, t: seq<byte>, k: nat)
    requires TakeVarint(s, k).Ok?
    ensures TakeVarint(s + t, k) == TakeVarint(s, k)
    decreases |s|
  {
    if s[0] >= 128 {
      assert (s + t)[1..] == s[1..] + t;
      TakeVarintLocal(s[1..], t, k + 1);
    }
  }

  // ----- size ---------------------------------------------------------------

  /** `bits.Len64`: the number of bits needed to write `v`. */
  function BitLen(v: nat): (n: nat)
  {
    if v == 0 then 0 else 1 + BitLen(v / 2)
  }

  /** `v | 1`. */
  function OrOne(v: nat): nat
  {
    if v % 2 == 0 then v + 1 else v
  }

  function Sov(v: nat): nat
  {
    (BitLen(OrOne(v)) + 6) / 7
  }

  lemma BitLenSeven(v: nat)
    requires v >= 128
    ensures BitLen(v) == 7 + BitLen(v / 128)
  {
    var v1 := v / 2;
    var v2 := v1 / 2;
    var v3 := v2 / 2;
    var v4 := v3 / 2;
    var v5 := v4 / 2;
    var v6 := v5 / 2;
    assert v6 / 2 == v / 128;
    assert BitLen(v) == 1 + BitLen(v1) == 2 + BitLen(v2) == 3 + BitLen(v3) == 4 + BitLen(v4);
    assert BitLen(v4) == 1 + BitLen(v5) == 2 + BitLen(v6) == 3 + BitLen(v6 / 2);
  }

  lemma BitLenSmall(v: nat)
    requires 1 <= v < 128
    ensures 1 <= BitLen(v) <= 7
  {
    var v1 := v / 2;
    var v3 := v1 / 2 / 2;
    var v5 := v3 / 2 / 2;
    assert v5 <= 3;
    assert BitLen(v1) <= 2 + BitLen(v3);
    assert BitLen(v3) <= 2 + BitLen(v5);
    assert BitLen(v5) <= 2;
  }

  /** `sov` is exactly the number of bytes the encoder writes. */
  lemma {:induction false} SovIsLength(v: nat)
    ensures Sov(v) == |Varint(v)|
    decreases v
  {
    if v < 128 {
      BitLenSmall(OrOne(v));
    } else {
      BitLenSeven(OrOne(v));
      var w := v / 128;
      assert OrOne(v) / 128 == w;
      assert OrOne(w) / 2 == w / 2;
      SovIsLength(w);
    }
  }

  // ----- the encoder --------------------------------------------------------

  /** `s` with the bytes from `lo` on overwritten by `chunk`. */
  ghost function Splice(s: seq<byte>, lo: nat, chunk: seq<byte>): (r: seq<byte>)
    requires lo + |chunk| <= |s|
    ensures |r| == |s|
  {
    s[..lo] + chunk + s[lo + |chunk|..]
  }

  lemma SpliceNothing(s: seq<byte>, lo: nat)
    requires lo <= |s|
    ensures Splice(s, lo, []) == s
  {
  }

  /** Writing `y` right before an earlier `x` leaves `y + x`. */
  lemma SpliceBefore(s: seq<byte>, lo: nat, y: seq<byte>, x: seq<byte>)
    requires lo + |y| + |x| <= |s|
    ensures Splice(Splice(s, lo + |y|, x), lo, y) == Splice(s, lo, y + x)
  {
    var m := Splice(s, lo + |y|, x);
    assert m[..lo] == s[..lo];
    assert m[lo + |y|..] == x + s[lo + |y| + |x|..];
  }

  method PutByte(buf: array<byte>, at: nat, b: byte)
    requires at < buf.Length
    modifies buf
    ensures buf[..] == Splice(old(buf[..]), at, [b])
  {
    buf[at] := b;
  }

  /** Go's `copy` into the buffer. */
  method PutBytes(buf: array<byte>, at: nat, s: seq<byte>)
    requires at + |s| <= buf.Length
    modifies buf
    ensures buf[..] == Splice(old(buf[..]), at, s)
  {
    forall k | 0 <= k < |s| {
      buf[at + k] := s[k];
    }
  }

  /** encodeVarintErc20: writes `v` so that it ends just before `offset`. */
  method EncodeVarint(buf: array<byte>, offset: nat, v: uint64) returns (base: nat)
    requires |Varint(v)| <= offset <= buf.Length
    modifies buf
    ensures base == offset - |Varint(v)|
    ensures buf[..] == Splice(old(buf[..]), base, Varint(v))
  {
    SovIsLength(v);
    var at := offset - Sov(v);
    base := at;
    var w := v;
    ghost var digits := Varint(v);
    while w >= 128
      invariant 0 <= w < 0x1_0000_0000_0000_0000
      invariant base <= at < offset && Varint(w) == digits[at - base..]
      invariant forall j :: base <= j < at ==> buf[j] == digits[j - base]
      invariant forall j :: 0 <= j < base || offset <= j < buf.Length ==> buf[j] == old(buf[j])
      decreases w
    {
      buf[at] := w % 128 + 128;
      assert Varint(w)[1..] == Varint(w / 128);
      w := w / 128;
      at := at + 1;
    }
    buf[at] := w;
  }

  /** A tag byte, the size of `s` and `s` itself, written from the back. */
  function Prefixed(tag: byte, s: seq<byte>): (r: seq<byte>)
    ensures |r| == 1 + |Varint(|s|)| + |s|
  {
    [tag] + (Varint(|s|) + s)
  }

  /** Puts tag and size before the bytes `s` already written at `at`. */
  method PutPrefix(buf: array<byte>, at: nat, tag: byte, size: nat, ghost was: seq<byte>, ghost s: seq<byte>)
    returns (i: nat)
    requires size == |s| <= MAX_INT && |was| == buf.Length
    requires 1 + |Varint(|s|)| <= at && at + |s| <= buf.Length
    requires buf[..] == Splice(was, at, s)
    modifies buf
    ensures i == at + |s| - |Prefixed(tag, s)|
    ensures buf[..] == Splice(was, i, Prefixed(tag, s))
  {
    hide Splice, Varint;
    i := EncodeVarint(buf, at, size);
    SpliceBefore(was, i, Varint(|s|), s);
    i := i - 1;
    PutByte(buf, i, tag);
    SpliceBefore(was, i, [tag], Varint(|s|) + s);
  }

  // ----- the decoders -------------------------------------------------------

  /** A varint whose first `k` digits, worth `sum`, are read and the rest is `r`. */
  ghost function Resume(r: Result<Read>, sum: nat, k: nat): Result<Read>
  {
    match r
    case Err(e) => Err(e)
    case Ok(t) => Ok(Read(sum + Pow128(k) * t.value, k + t.size))
  }

  lemma ResumeEnds(s: seq<byte>, sum: nat, k: nat)
    ensures Pow128(0) == 1
    ensures Resume(TakeVarint(s, 0), 0, 0) == TakeVarint(s, 0)
    ensures k >= 10 ==> Resume(TakeVarint(s, k), sum, k) == Err(IntOverflow)
    ensures k < 10 && s == [] ==> Resume(TakeVarint(s, k), sum, k) == Err(UnexpectedEOF)
  {
  }

  /** What the byte adds as the digit in place `k`: its low seven bits, shifted. */
  function Digit(b: byte, k: nat): (d: nat)
  {
    DigitBound(Pow128(k), b % 128);
    b % 128 * Pow128(k)
  }

  lemma DigitBound(p: nat, d: nat)
    requires d < 128
    ensures 0 <= d * p <= 127 * p
  {
  }

  /** One more digit moves from the rest to the sum. */
  lemma ResumeStep(s: seq<byte>, sum: nat, k: nat, digit: nat)
    requires s != [] && k < 10 && digit == Digit(s[0], k)
    ensures s[0] < 128 ==>
              Resume(TakeVarint(s, k), sum, k) == Ok(Read(sum + digit, k + 1))
    ensures s[0] >= 128 ==>
              Resume(TakeVarint(s, k), sum, k)
              == Resume(TakeVarint(s[1..], k + 1), sum + digit, k + 1)
  {
    var d, p, r := s[0] % 128, Pow128(k), TakeVarint(s[1..], k + 1);
    Distribute(p, d, 0);
    if s[0] >= 128 && r.Ok? {
      var v := r.value.value;
      assert TakeVarint(s, k) == Ok(Read(d + 128 * v, r.value.size + 1));
      Distribute(p, d, v);
      assert Pow128(k + 1) == 128 * p;
      assert sum + p * (d + 128 * v) == (sum + digit) + Pow128(k + 1) * v;
    }
  }

  lemma Distribute(p: nat, d: nat, v: nat)
    ensures d * p >= 0 && p * (d + 128 * v) == d * p + (128 * p) * v
  {
  }

  // ----- or and plus agree on digits ----------------------------------------

  /** Bitwise or. */
  function Or(x: nat, y: nat): nat
  {
    if x == 0 then y else if y == 0 then x
    else (if x % 2 == 1 || y % 2 == 1 then 1 else 0) + 2 * Or(x / 2, y / 2)
  }

  function Pow2(n: nat): (p: nat)
    ensures p >= 1
  {
    if n == 0 then 1 else 2 * Pow2(n - 1)
  }

  lemma {:induction false} SevenBits(k: nat)
    ensures Pow2(7 * k) == Pow128(k)
    decreases k
  {
    if k > 0 {
      SevenBits(k - 1);
      var n := 7 * k - 7;
      assert Pow2(n + 7) == 2 * Pow2(n + 6) == 4 * Pow2(n + 5) == 8 * Pow2(n + 4);
      assert Pow2(n + 4) == 2 * Pow2(n + 3) == 4 * Pow2(n + 2) == 8 * Pow2(n + 1) == 16 * Pow2(n);
    }
  }

  /** `q << n`, by doubling. */
  function Shl(q: nat, n: nat): nat
  {
    if n == 0 then q else 2 * Shl(q, n - 1)
  }

  lemma {:induction false} ShlIsProduct(q: nat, n: nat)
    ensures Shl(q, n) == q * Pow2(n)
    decreases n
  {
    if n > 0 {
      ShlIsProduct(q, n - 1);
      Double(q, Pow2(n - 1));
    }
  }

  lemma Double(q: nat, p: nat)
    ensures q * (2 * p) == 2 * (q * p)
  {
  }

  /** Numbers without a common bit: one below 2^n, the other a multiple of it. */
  lemma {:induction false} OrDisjoint(x: nat, q: nat, n: nat)
    requires x < Pow2(n)
    ensures Or(x, Shl(q, n)) == x + Shl(q, n)
    decreases n
  {
    if n > 0 {
      OrDisjoint(x / 2, q, n - 1);
    }
  }

  lemma OrDigits(x: nat, q: nat, k: nat)
    requires x < Pow128(k)
    ensures 0 <= q * Pow128(k) && Or(x, q * Pow128(k)) == x + q * Pow128(k)
  {
    hide Or, Shl, Pow2, Pow128;
    SevenBits(k);
    ShlIsProduct(q, 7 * k);
    OrDisjoint(x, q, 7 * k);
  }

  lemma Powers(k: nat)
    requires k <= 9
    ensures Pow128(0) == 1 && Pow128(1) == 128 && Pow128(2) == 0x4000 && Pow128(3) == 0x20_0000 && Pow128(4) == 0x1000_0000
    ensures Pow128(5) == 0x8_0000_0000 && Pow128(6) == 0x400_0000_0000 && Pow128(7) == 0x2_0000_0000_0000
    ensures Pow128(8) == 0x100_0000_0000_0000 && Pow128(9) == 0x8000_0000_0000_0000
    ensures k <= 8 ==> Pow128(k) <= 0x100_0000_0000_0000
    ensures k <= 3 ==> Pow128(k) <= 0x20_0000
    ensures k >= 5 ==> Pow128(k) % 0x1_0000_0000 == 0
  {
    assert k in {0, 1, 2, 3, 4, 5, 6, 7, 8, 9};
  }

  lemma MoreDigits(sum: nat, k: nat, b: byte)
    requires sum < Pow128(k)
    ensures sum + Digit(b, k) < Pow128(k + 1)
  {
    assert Pow128(k + 1) == 128 * Pow128(k);
    hide Pow128;
    DigitBound(Pow128(k), b % 128);
  }

  lemma TenthDigit(d: nat)
    ensures Uint64(d * 0x8000_0000_0000_0000) == d % 2 * 0x8000_0000_0000_0000
  {
    assert d == 2 * (d / 2) + d % 2;
  }

  /** One round of the 64-bit loop: the shift loses bits in the tenth digit only. */
  lemma OrDigit64(sum: nat, k: nat, b: byte)
    requires k <= 9 && sum < Pow128(k)
    ensures Or(Uint64(sum), Uint64(Digit(b, k))) == Uint64(sum + Digit(b, k))
  {
    hide Or, Pow128;
    Powers(k);
    if k < 9 {
      DigitBound(Pow128(k), b % 128);
      OrDigits(sum, b % 128, k);
    } else {
      LastDigit64(sum, b);
    }
  }

  lemma LastDigit64(sum: nat, b: byte)
    requires sum < 0x8000_0000_0000_0000
    ensures Or(Uint64(sum), Uint64(Digit(b, 9))) == Uint64(sum + Digit(b, 9))
  {
    hide Or, Pow128;
    Powers(9);
    var d := b % 128;
    assert Digit(b, 9) == d * 0x8000_0000_0000_0000;
    TenthDigit(d);
    OrDigits(sum, d % 2, 9);
    hide Digit;
    assert d == 2 * (d / 2) + d % 2;
  }

  /** One round of the 32-bit loop: digits from the sixth on are shifted out. */
  lemma OrDigit32(sum: nat, k: nat, b: byte)
    requires k <= 9 && sum < Pow128(k)
    ensures Int32(Or(Uint32(Int32(sum)), Uint32(Digit(b, k)))) == Int32(sum + Digit(b, k))
  {
    hide Or, Int32, Uint32, Digit, Pow128;
    WrapBack(sum);
    if k <= 3 {
      LowDigit(sum, k, b);
    } else if k == 4 {
      FifthDigit(sum, b);
    } else {
      HighDigit(sum, k, b);
    }
    SameWord(Or(Uint32(sum), Uint32(Digit(b, k))), sum + Digit(b, k));
  }

  lemma SmallWord(x: nat)
    requires x < 0x1_0000_0000
    ensures Uint32(x) == x
  {
  }

  lemma LowDigit(sum: nat, k: nat, b: byte)
    requires k <= 3 && sum < Pow128(k)
    ensures Or(Uint32(sum), Uint32(Digit(b, k))) == sum + Digit(b, k)
  {
    hide Or, Uint32, Pow128;
    Powers(k);
    DigitBound(Pow128(k), b % 128);
    OrDigits(sum, b % 128, k);
    assert Digit(b, k) == b % 128 * Pow128(k);
    hide Digit;
    SmallWord(sum);
    SmallWord(Digit(b, k));
  }

  lemma FifthShift(d: nat)
    ensures Uint32(d * 0x1000_0000) == d % 16 * 0x1000_0000
  {
    Remainder32(d * 0x1000_0000, d / 16, d % 16 * 0x1000_0000);
  }

  lemma FifthWords(sum: nat, y: nat, d: nat)
    requires sum < 0x1000_0000 && y == d % 16 * 0x1000_0000
    ensures Uint32(sum) == sum && Uint32(sum + y) == sum + y == Uint32(sum + d * 0x1000_0000)
  {
    Remainder32(sum + d * 0x1000_0000, d / 16, sum + y);
  }

  lemma FifthDigit(sum: nat, b: byte)
    requires sum < Pow128(4)
    ensures Uint32(Or(Uint32(sum), Uint32(Digit(b, 4)))) == Uint32(sum + Digit(b, 4))
  {
    hide Or, Pow128;
    Powers(4);
    var d := b % 128;
    assert Digit(b, 4) == d * 0x1000_0000;
    FifthShift(d);
    OrDigits(sum, d % 16, 4);
    hide Digit, Uint32;
    FifthWords(sum, d % 16 * 0x1000_0000, d);
  }

  lemma OrNothing(x: nat)
    ensures Or(x, 0) == x
  {
  }

  lemma AddNothing(x: nat, y: nat)
    requires Uint32(y) == 0
    ensures Uint32(Uint32(x)) == Uint32(x + y)
  {
    var q := x / 0x1_0000_0000 + y / 0x1_0000_0000;
    Remainder32(x + y, q, x % 0x1_0000_0000);
    SmallWord(x % 0x1_0000_0000);
  }

  lemma HighDigitIsNothing(k: nat, b: byte)
    requires 5 <= k <= 9
    ensures Uint32(Digit(b, k)) == 0
  {
    hide Pow128;
    Powers(k);
    ShiftedOut(Pow128(k), b % 128);
  }

  lemma HighDigit(sum: nat, k: nat, b: byte)
    requires 5 <= k <= 9
    ensures Uint32(Or(Uint32(sum), Uint32(Digit(b, k)))) == Uint32(sum + Digit(b, k))
  {
    hide Pow128, Or, Digit, Uint32;
    HighDigitIsNothing(k, b);
    OrNothing(Uint32(sum));
    AddNothing(sum, Digit(b, k));
  }

  lemma ShiftedOut(p: nat, d: nat)
    requires p % 0x1_0000_0000 == 0
    ensures d * p % 0x1_0000_0000 == 0
  {
    var q := p / 0x1_0000_0000;
    assert d * p == (d * q) * 0x1_0000_0000;
  }

  /** What one round of either loop reads. */
  lemma NextDigit(data: seq<byte>, i: nat, sum: nat, k: nat)
    requires i < |data| && k < 10 && sum < Pow128(k)
    ensures var b, sum' := data[i], sum + Digit(data[i], k);
            && sum' < Pow128(k + 1)
            && (b < 128 ==> Resume(TakeVarint(data[i..], k), sum, k) == Ok(Read(sum', k + 1)))
            && (b >= 128 ==> Resume(TakeVarint(data[i..], k), sum, k) == Resume(TakeVarint(data[i + 1..], k + 1), sum', k + 1))
  {
    hide TakeVarint, Resume, Pow128, Digit;
    MoreDigits(sum, k, data[i]);
    ResumeStep(data[i..], sum, k, Digit(data[i], k));
    assert data[i..][1..] == data[i + 1..];
  }

  /** The decoding loop: accumulates seven bits at a time in a 64-bit word. */
  method ReadVarint(data: seq<byte>, start: nat) returns (r: Result<Read>)
    requires start <= |data|
    ensures r == match TakeVarint(data[start..], 0)
                 case Err(e) => Err(e)
                 case Ok(t) => Ok(Read(Uint64(t.value), t.size))
  {
    hide TakeVarint, Resume, Uint64, Pow128, Or, Digit;
    var word, shift, i := 0, 0, start;
    ghost var sum: nat, k: nat := 0, 0;
    ResumeEnds(data[start..], 0, 0);
    while true
      invariant shift == 7 * k && k <= 10 && i == start + k <= |data|
      invariant word == Uint64(sum) && sum < Pow128(k)
      invariant TakeVarint(data[start..], 0) == Resume(TakeVarint(data[i..], k), sum, k)
      decreases |data| - i
    {
      ResumeEnds(data[i..], sum, k);
      if shift >= 64 {
        return Err(IntOverflow);
      }
      if i >= |data| {
        return Err(UnexpectedEOF);
      }
      var b := data[i];
      var place := shift / 7;
      var digit := Digit(b, place);
      NextDigit(data, i, sum, k);
      OrDigit64(sum, k, b);
      i := i + 1;
      word := Or(word, Uint64(digit));
      sum := sum + digit;
      if b < 128 {
        return Ok(Read(word, i - start));
      }
      shift, k := shift + 7, k + 1;
    }
  }

  /** The decoding loop for an enum: the word it accumulates in has 32 bits. */
  method ReadEnum(data: seq<byte>, start: nat) returns (r: Result<(int32, nat)>)
    requires start <= |data|
    ensures r == match TakeVarint(data[start..], 0)
                 case Err(e) => Err(e)
                 case Ok(t) => Ok((Int32(t.value), t.size))
  {
    hide TakeVarint, Resume, Int32, Uint32, Pow128, Or, Digit;
    var word: int32, shift, i := 0, 0, start;
    ghost var sum: nat, k: nat := 0, 0;
    ResumeEnds(data[start..], 0, 0);
    while true
      invariant shift == 7 * k && k <= 10 && i == start + k <= |data|
      invariant word == Int32(sum) && sum < Pow128(k)
      invariant TakeVarint(data[start..], 0) == Resume(TakeVarint(data[i..], k), sum, k)
      decreases |data| - i
    {
      ResumeEnds(data[i..], sum, k);
      if shift >= 64 {
        return Err(IntOverflow);
      }
      if i >= |data| {
        return Err(UnexpectedEOF);
      }
      var b := data[i];
      var place := shift / 7;
      var digit := Digit(b, place);
      NextDigit(data, i, sum, k);
      OrDigit32(sum, k, b);
      i := i + 1;
      word := Int32(Or(Uint32(word), Uint32(digit)));
      sum := sum + digit;
      if b < 128 {
        return Ok((word, i - start));
      }
      shift, k := shift + 7, k + 1;
    }
  }
}
