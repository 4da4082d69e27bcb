/** Addresses and their hexadecimal text, as go-ethereum's `common` package reads it. */
module Hex {
  import opened GoInts
  import opened TokenPairs

  /** An account: 20 bytes on the EVM side, any number on the Cosmos side. */
  datatype Address = Address(bytes: seq<byte>)

  const ZERO_ADDRESS: Address := Address([0, 0, 0, 0, 0, 0, 0, 0, 0, 0, 0, 0, 0, 0, 0, 0, 0, 0, 0, 0])

  predicate IsHexDigit(c: byte)
  {
    48 <= c <= 57 || 97 <= c <= 102 || 65 <= c <= 70
  }

  function DigitValue(c: byte): (v: nat)
    requires IsHexDigit(c)
    ensures v < 16
  {
    if c <= 57 then c - 48 else if c >= 97 then c - 87 else c - 55
  }

  predicate Has0x(s: GoString)
  {
    |s| >= 2 && s[0] == 48 && (s[1] == 120 || s[1] == 88)
  }

  function Strip0x(s: GoString): GoString
  {
    if Has0x(s) then s[2..] else s
  }

  /** common.IsHexAddress. */
  predicate IsHexAddress(s: GoString)
  {
    |Strip0x(s)| == 40 && forall c :: c in Strip0x(s) ==> IsHexDigit(c)
  }

  /** hex.DecodeString with its error ignored: the bytes before the first bad digit. */
  function DecodeHex(s: GoString): (r: seq<byte>)
    ensures |r| <= |s| / 2
  {
    if |s| < 2 || !IsHexDigit(s[0]) || !IsHexDigit(s[1]) then []
    else [DigitValue(s[0]) * 16 + DigitValue(s[1])] + DecodeHex(s[2..])
  }

  /** common.BytesToAddress: keeps the last 20 bytes, padding on the left. */
  function BytesToAddress(b: seq<byte>): (a: Address)
    ensures |a.bytes| == 20
  {
    if |b| >= 20 then Address(b[|b| - 20..]) else Address(seq(20 - |b|, _ => 0) + b)
  }

  /** common.HexToAddress. */
  function HexToAddress(s: GoString): (a: Address)
    ensures |a.bytes| == 20
  {
    var t := Strip0x(s);
    BytesToAddress(DecodeHex(if |t| % 2 == 1 then [48] + t else t))
  }

  // ----- the printer --------------------------------------------------------

  function HexDigit(v: nat, upper: bool): (c: byte)
    requires v < 16
    ensures IsHexDigit(c) && DigitValue(c) == v
  {
    if v < 10 then 48 + v else if upper then 55 + v else 87 + v
  }

  /** Two digits per byte; `upper` is the case of each digit (EIP-55 takes it from a hash). */
  function HexText(b: seq<byte>, upper: seq<bool>): (s: GoString)
    requires |upper| == 2 * |b|
    ensures |s| == 2 * |b|
  {
    if b == [] then []
    else [HexDigit(b[0] / 16, upper[0]), HexDigit(b[0] % 16, upper[1])] + HexText(b[1..], upper[2..])
  }

  /** Address.String. */
  function AddressText(a: Address, upper: seq<bool>): (s: GoString)
    requires |a.bytes| == 20 && |upper| == 40
  {
    [48, 120] + HexText(a.bytes, upper)
  }

  lemma {:induction false} HexTextDecodes(b: seq<byte>, upper: seq<bool>)
    requires |upper| == 2 * |b|
    ensures DecodeHex(HexText(b, upper)) == b
    ensures forall c :: c in HexText(b, upper) ==> IsHexDigit(c)
    decreases |b|
  {
    if b != [] {
      HexTextDecodes(b[1..], upper[2..]);
      assert HexText(b, upper)[2..] == HexText(b[1..], upper[2..]);
    }
  }

  /** Whatever the case of its digits, an address's text denotes that address. */
  lemma AddressTextParses(a: Address, upper: seq<bool>)
    requires |a.bytes| == 20 && |upper| == 40
    ensures IsHexAddress(AddressText(a, upper))
    ensures HexToAddress(AddressText(a, upper)) == a
  {
    HexTextDecodes(a.bytes, upper);
    assert AddressText(a, upper)[2..] == HexText(a.bytes, upper);
  }

  /** The prefixes a hexadecimal address may have. */
  ghost predicate IsPrefix(p: GoString)
  {
    p == [] || p == [48, 120] || p == [48, 88]
  }

  lemma DigitPrinted(c: byte)
    requires IsHexDigit(c)
    ensures HexDigit(DigitValue(c), c <= 70) == c
  {
  }

  lemma TwoDigits(x: nat, y: nat)
    requires x < 16 && y < 16
    ensures (x * 16 + y) / 16 == x && (x * 16 + y) % 16 == y
  {
  }

  /** Digits are printed as they are read. */
  lemma {:induction false} HexTextOf(s: GoString) returns (upper: seq<bool>)
    requires |s| % 2 == 0 && forall c :: c in s ==> IsHexDigit(c)
    ensures 2 * |DecodeHex(s)| == |s| == |upper| && HexText(DecodeHex(s), upper) == s
    decreases |s|
  {
    if s == [] {
      upper := [];
    } else {
      assert s[0] in s && s[1] in s;
      var rest := HexTextOf(s[2..]);
      upper := [s[0] <= 70, s[1] <= 70] + rest;
      DigitPrinted(s[0]);
      DigitPrinted(s[1]);
      TwoDigits(DigitValue(s[0]), DigitValue(s[1]));
      hide IsHexDigit, DigitValue, HexDigit;
      var b := DecodeHex(s);
      assert b == [DigitValue(s[0]) * 16 + DigitValue(s[1])] + DecodeHex(s[2..]);
      assert upper[2..] == rest && b[1..] == DecodeHex(s[2..]);
      assert s == [s[0], s[1]] + s[2..];
    }
  }

  /** A text passes for an address exactly if it is some address printed, with or without prefix, in any letter case. */
  lemma HexAddressIff(s: GoString)
    ensures IsHexAddress(s)
            <==> exists p, a: Address, upper ::
                   IsPrefix(p) && |a.bytes| == 20 && |upper| == 40 && s == p + HexText(a.bytes, upper) && HexToAddress(s) == a
  {
    if IsHexAddress(s) {
      var t := Strip0x(s);
      var upper := HexTextOf(t);
      var a, p := Address(DecodeHex(t)), s[..|s| - 40];
      assert s == p + t;
      assert IsPrefix(p);
      assert a.bytes[0..] == a.bytes;
    }
    if exists p, a: Address, upper ::
         IsPrefix(p) && |a.bytes| == 20 && |upper| == 40 && s == p + HexText(a.bytes, upper) && HexToAddress(s) == a {
      var p, a: Address, upper :|
        IsPrefix(p) && |a.bytes| == 20 && |upper| == 40 && s == p + HexText(a.bytes, upper) && HexToAddress(s) == a;
      HexTextDecodes(a.bytes, upper);
      PrefixStripped(p, HexText(a.bytes, upper));
    }
  }

  lemma PrefixStripped(p: GoString, t: GoString)
    requires IsPrefix(p) && |t| == 40 && forall c :: c in t ==> IsHexDigit(c)
    ensures Strip0x(p + t) == t
  {
    assert t[1] in t;
    if p == [] {
      assert p + t == t;
    } else {
      assert (p + t)[2..] == t;
    }
  }

  /** Any address text denotes the address printed in it. */
  lemma PrefixedTextParses(p: GoString, a: Address, upper: seq<bool>)
    requires IsPrefix(p) && |a.bytes| == 20 && |upper| == 40
    ensures HexToAddress(p + HexText(a.bytes, upper)) == a
  {
    HexTextDecodes(a.bytes, upper);
    PrefixStripped(p, HexText(a.bytes, upper));
    assert a.bytes[0..] == a.bytes;
  }

  /** The last twenty bytes, after as many zeros as are missing. */
  lemma LastTwenty(b: seq<byte>)
    ensures BytesToAddress(b).bytes == (ZERO_ADDRESS.bytes + b)[|b|..]
  {
  }

  lemma HexHasNo(s: GoString, c: byte)
    requires IsHexAddress(s) && !IsHexDigit(c) && c != 120 && c != 88
    ensures c !in s
  {
    if Has0x(s) {
      assert s == [s[0], s[1]] + Strip0x(s);
    }
  }
}
