/** The wire codec of `TokenPair` (x/erc20/types/erc20.pb.go). */
module TokenPairCodec {
  import opened GoInts
  import opened Varints
  import opened Wire
  import opened TokenPairs

  // ----- the encoding -------------------------------------------------------

  /** A length-delimited field, left out when empty. */
  function EncodeString(tag: byte, s: GoString): (r: seq<byte>)
    ensures |s| <= |r|
  {
    if s == [] then [] else Prefixed(tag, s)
  }

  function EncodeBool(tag: byte, b: bool): (r: seq<byte>)
    ensures |r| <= 2
  {
    if b then [tag] + [1] else []
  }

  function EncodeOwner(owner: int32): (r: seq<byte>)
  {
    if owner == 0 then [] else [0x20] + Varint(Uint64(owner))
  }

  function Encode(p: TokenPair): (r: seq<byte>)
  {
    EncodeString(0x0a, p.erc20Address) + (EncodeString(0x12, p.denom)
      + (EncodeBool(0x18, p.enabled) + EncodeOwner(p.contractOwner)))
  }

  /** TokenPair.Size: what accumulating the sizes of the fields present comes to. */
  function Size(p: TokenPair): (n: nat)
    ensures n == |Encode(p)|
  {
    var l1, l2 := |p.erc20Address|, |p.denom|;
    SovIsLength(l1); SovIsLength(l2); SovIsLength(Uint64(p.contractOwner));
    var n1 := if l1 > 0 then 1 + l1 + Sov(l1) else 0;
    var n2 := if l2 > 0 then n1 + 1 + l2 + Sov(l2) else n1;
    var n3 := if p.enabled then n2 + 2 else n2;
    if p.contractOwner != 0 then n3 + 1 + Sov(Uint64(p.contractOwner)) else n3
  }

  // ----- the backward writer ------------------------------------------------

  method PutString(buf: array<byte>, end: nat, tag: byte, s: GoString) returns (i: nat)
    requires |EncodeString(tag, s)| <= end <= buf.Length && |s| <= MAX_INT
    modifies buf
    ensures i == end - |EncodeString(tag, s)|
    ensures buf[..] == Splice(old(buf[..]), i, EncodeString(tag, s))
  {
    i := end;
    if |s| > 0 {
      i := i - |s|;
      PutBytes(buf, i, s);
      i := PutPrefix(buf, i, tag, |s|, old(buf[..]), s);
    }
  }

  method PutBool(buf: array<byte>, end: nat, tag: byte, b: bool) returns (i: nat)
    requires |EncodeBool(tag, b)| <= end <= buf.Length
    modifies buf
    ensures i == end - |EncodeBool(tag, b)|
    ensures buf[..] == Splice(old(buf[..]), i, EncodeBool(tag, b))
  {
    i := end;
    if b {
      hide Splice;
      ghost var was := buf[..];
      i := i - 1;
      PutByte(buf, i, 1);
      i := i - 1;
      PutByte(buf, i, tag);
      SpliceBefore(was, i, [tag], [1]);
    }
  }

  method PutOwner(buf: array<byte>, end: nat, owner: int32) returns (i: nat)
    requires |EncodeOwner(owner)| <= end <= buf.Length
    modifies buf
    ensures i == end - |EncodeOwner(owner)|
    ensures buf[..] == Splice(old(buf[..]), i, EncodeOwner(owner))
  {
    i := end;
    if owner != 0 {
      hide Splice;
      ghost var was := buf[..];
      i := EncodeVarint(buf, i, Uint64(owner));
      i := i - 1;
      PutByte(buf, i, 0x20);
      SpliceBefore(was, i, [0x20], Varint(Uint64(owner)));
    }
  }

  /** TokenPair.MarshalToSizedBuffer on the part of the buffer before `end`. */
  method MarshalToSizedBuffer(p: TokenPair, buf: array<byte>, end: nat) returns (n: nat)
    requires Size(p) <= end <= buf.Length && Size(p) <= MAX_INT
    modifies buf
    ensures n == Size(p)
    ensures buf[..] == Splice(old(buf[..]), end - n, Encode(p))
  {
    hide EncodeString, EncodeBool, EncodeOwner, Splice, Size;
    ghost var f4 := EncodeOwner(p.contractOwner);
    ghost var f3 := EncodeBool(0x18, p.enabled);
    ghost var f2 := EncodeString(0x12, p.denom);
    ghost var f1 := EncodeString(0x0a, p.erc20Address);
    ghost var was := buf[..];
    var i := PutOwner(buf, end, p.contractOwner);
    i := PutBool(buf, i, 0x18, p.enabled);
    SpliceBefore(was, i, f3, f4);
    i := PutString(buf, i, 0x12, p.denom);
    SpliceBefore(was, i, f2, f3 + f4);
    i := PutString(buf, i, 0x0a, p.erc20Address);
    SpliceBefore(was, i, f1, f2 + (f3 + f4));
    n := end - i;
  }

  /** TokenPair.Marshal: a buffer of exactly `Size` bytes, filled from the back. */
  method Marshal(p: TokenPair) returns (buf: array<byte>)
    requires Size(p) <= MAX_INT
    ensures fresh(buf) && buf.Length == Size(p) && buf[..] == Encode(p)
  {
    buf := new byte[Size(p)];
    var n := MarshalToSizedBuffer(p, buf, buf.Length);
  }

  // ----- the parser ---------------------------------------------------------

  /** One round of the parser: the field at the head of `s` merged into `p`. */
  function Step(p: TokenPair, s: seq<byte>, at: nat): (r: Result<Stepped<TokenPair>>)
    requires at + |s| <= MAX_INT
    ensures r.Ok? ==> 1 <= r.value.size <= |s|
  {
    match TakeFieldTag(s)
    case Err(e) => Err(e)
    case Ok(t) =>
      if 1 <= t.num <= 4 then
        if t.wire != (if t.num <= 2 then 2 else 0) then Err(WrongWireType)
        else Merge(p, t, s[t.size..], at + t.size)
      else
        match TakeUnknown(s, at)
        case Err(e) => Err(e)
        case Ok(n) => Ok(Stepped(p, n))
  }

  /** The payload of a known field, whose tag precedes it, merged into `p`. */
  function Merge(p: TokenPair, t: Tag, s: seq<byte>, at: nat): (r: Result<Stepped<TokenPair>>)
    requires at + |s| <= MAX_INT && 1 <= t.num <= 4
    ensures r.Ok? ==> t.size < r.value.size <= t.size + |s|
  {
    if t.num <= 2 then
      match TakeChunk(s, at)
      case Err(e) => Err(e)
      case Ok(c) =>
        Ok(Stepped(if t.num == 1 then p.(erc20Address := c.body) else p.(denom := c.body), t.size + c.size))
    else
      match TakeVarint(s, 0)
      case Err(e) => Err(e)
      case Ok(v) =>
        Ok(Stepped(if t.num == 3 then p.(enabled := Uint64(v.value) != 0) else p.(contractOwner := Int32(v.value)),
                   t.size + v.size))
  }

  /** The fields of `s`, one after the other, merged into `p`. */
  function Decode(p: TokenPair, s: seq<byte>, at: nat): (r: Result<TokenPair>)
    requires at + |s| <= MAX_INT
    decreases |s|
  {
    if s == [] then Ok(p) else
    match Step(p, s, at)
    case Err(e) => Err(e)
    case Ok(k) => Decode(k.msg, s[k.size..], at + k.size)
  }

  /** The case of a known field in TokenPair.Unmarshal's loop. */
  method MergeField(p: TokenPair, t: Tag, data: seq<byte>, i: nat) returns (r: Result<Stepped<TokenPair>>)
    requires i <= |data| <= MAX_INT && 1 <= t.num <= 4
    ensures r == Merge(p, t, data[i..], i)
  {
    match t.num {
      case 1 =>
        var c := ReadChunk(data, i);
        r := match c case Err(e) => Err(e) case Ok(c) => Ok(Stepped(p.(erc20Address := c.body), t.size + c.size));
      case 2 =>
        var c := ReadChunk(data, i);
        r := match c case Err(e) => Err(e) case Ok(c) => Ok(Stepped(p.(denom := c.body), t.size + c.size));
      case 3 =>
        var v := ReadVarint(data, i);
        r := match v case Err(e) => Err(e) case Ok(v) => Ok(Stepped(p.(enabled := v.value != 0), t.size + v.size));
      case _ =>
        var v := ReadEnum(data, i);
        r := match v case Err(e) => Err(e) case Ok(v) => Ok(Stepped(p.(contractOwner := v.0), t.size + v.1));
    }
  }

  method ReadField(p: TokenPair, data: seq<byte>, i: nat) returns (r: Result<Stepped<TokenPair>>)
    requires i <= |data| <= MAX_INT
    ensures r == Step(p, data[i..], i)
  {
    var t := ReadFieldTag(data, i);
    if t.Err? {
      return Err(t.error);
    }
    var tag := t.value;
    if 1 <= tag.num <= 4 {
      if tag.wire != (if tag.num <= 2 then 2 else 0) {
        return Err(WrongWireType);
      }
      assert data[i..][tag.size..] == data[i + tag.size..];
      r := MergeField(p, tag, data, i + tag.size);
    } else {
      var n := ReadUnknown(data, i);
      r := match n case Err(e) => Err(e) case Ok(n) => Ok(Stepped(p, n));
    }
  }

  /** TokenPair.Unmarshal, merging the fields of `data` into `m`. */
  method Unmarshal(m: TokenPair, data: seq<byte>) returns (r: Result<TokenPair>)
    requires |data| <= MAX_INT
    ensures r == Decode(m, data, 0)
  {
    hide Step;
    var p, i := m, 0;
    assert data[0..] == data;
    while i < |data|
      invariant 0 <= i <= |data|
      invariant Decode(m, data, 0) == Decode(p, data[i..], i)
      decreases |data| - i
    {
      var f := ReadField(p, data, i);
      if f.Err? {
        return Err(f.error);
      }
      assert data[i..][f.value.size..] == data[i + f.value.size..];
      p, i := f.value.msg, i + f.value.size;
    }
    return Ok(p);
  }
}
