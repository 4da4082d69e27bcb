/**
 Records of the wire format: tags, length-delimited chunks and the skipper for
 unknown fields (skipErc20 in x/erc20/types/erc20.pb.go; skipGenesis is the same code).

 Specifications read from the head of a byte string.  The index `at` that the head
 has in the whole message matters only where Go's `int` may wrap around.
 */
module Wire {
  import opened GoInts
  import opened Varints

  datatype Tag = Tag(num: int32, wire: nat, size: nat)
  datatype Chunk = Chunk(body: seq<byte>, size: nat)

  function TakeTag(s: seq<byte>): (r: Result<Tag>)
    ensures r.Ok? ==> 1 <= r.value.size <= |s| && r.value.wire < 8
  {
    match TakeVarint(s, 0)
    case Err(e) => Err(e)
    case Ok(t) => Ok(Tag(Int32(Uint64(t.value) / 8), Uint64(t.value) % 8, t.size))
  }

  function TakeChunk(s: seq<byte>, at: nat): (r: Result<Chunk>)
    ensures r.Ok? ==> 1 <= r.value.size <= |s| && |r.value.body| <= |s|
  {
    match TakeVarint(s, 0)
    case Err(e) => Err(e)
    case Ok(t) =>
      var length := Int64(t.value);
      if length < 0 || Int64(at + t.size + length) < 0 then Err(InvalidLength)
      else if t.size + length > |s| then Err(UnexpectedEOF)
      else Ok(Chunk(s[t.size..t.size + length], t.size + length))
  }

  /** How far the skipper moves over the payload of a field of the given wire type. */
  function PayloadSize(s: seq<byte>, wire: nat): Result<nat>
  {
    match wire
    case 0 => (match TakeVarint(s, 0) case Err(e) => Err(e) case Ok(t) => Ok(t.size))
    case 1 => Ok(8)
    case 2 => (match TakeVarint(s, 0)
               case Err(e) => Err(e)
               case Ok(t) => if Int64(t.value) < 0 then Err(InvalidLength) else Ok(t.size + Int64(t.value)))
    case 3 => Ok(0)
    case 4 => Ok(0)
    case 5 => Ok(4)
    case _ => Err(IllegalWireType)
  }

  /** The skipper's index and its count of open groups. */
  datatype Skipped = Skipped(next: nat, open: nat)

  /** One round of the skipper: a tag and, unless it opens or closes a group, its payload. */
  function SkipStep(s: seq<byte>, at: nat, depth: nat): (r: Result<Skipped>)
    requires at + |s| <= MAX_INT
    ensures r.Ok? ==> at < r.value.next <= MAX_INT
  {
    match TakeTag(s)
    case Err(e) => Err(e)
    case Ok(t) =>
      if t.wire == 4 && depth == 0 then Err(UnexpectedEndOfGroup) else
      match PayloadSize(s[t.size..], t.wire)
      case Err(e) => Err(e)
      case Ok(n) =>
        var next := Int64(at + t.size + n);
        var open := if t.wire == 3 then depth + 1 else if t.wire == 4 then depth - 1 else depth;
        if next < 0 then Err(InvalidLength) else Ok(Skipped(next, open))
  }

  /** The index just after the field at the head of `s`, `depth` groups being open. */
  function SkipFrom(s: seq<byte>, at: nat, depth: nat): (r: Result<nat>)
    requires at + |s| <= MAX_INT
    ensures r.Ok? ==> at < r.value <= MAX_INT
    decreases |s|
  {
    if s == [] then Err(UnexpectedEOF) else
    match SkipStep(s, at, depth)
    case Err(e) => Err(e)
    case Ok(k) =>
      if k.open == 0 then Ok(k.next)
      else if k.next - at >= |s| then Err(UnexpectedEOF)
      else SkipFrom(s[k.next - at..], k.next, k.open)
  }

  /** Moves the skipper's index over the payload of a field other than a group marker. */
  method SkipPayload(data: seq<byte>, start: nat, wire: nat) returns (r: Result<int>)
    requires start <= |data| <= MAX_INT && wire != 3 && wire != 4
    ensures r == match PayloadSize(data[start..], wire)
                 case Err(e) => Err(e)
                 case Ok(n) => Ok(Int64(start + n))
  {
    match wire {
      case 0 =>
        var v := ReadVarint(data, start);
        r := match v case Err(e) => Err(e) case Ok(t) => Ok(start + t.size);
      case 1 =>
        r := Ok(Int64(start + 8));
      case 2 =>
        var v := ReadVarint(data, start);
        if v.Err? {
          return Err(v.error);
        }
        UintThenSigned(TakeVarint(data[start..], 0).value.value);
        var length := Int64(v.value.value);
        r := if length < 0 then Err(InvalidLength) else Ok(Int64(start + v.value.size + length));
      case 5 =>
        r := Ok(Int64(start + 4));
      case _ =>
        r := Err(IllegalWireType);
    }
  }

  /** The body of the skipper's loop. */
  method SkipRecord(data: seq<byte>, start: nat, depth: nat) returns (r: Result<Skipped>)
    requires start <= |data| <= MAX_INT
    ensures r == SkipStep(data[start..], start, depth)
  {
    var tag := ReadVarint(data, start);
    if tag.Err? {
      return Err(tag.error);
    }
    var i := start + tag.value.size;
    var wire := tag.value.value % 8;
    ghost var s := data[start..];
    assert TakeTag(s).value.wire == wire && TakeTag(s).value.size == tag.value.size;
    assert s[tag.value.size..] == data[i..];
    if wire == 3 {
      return Ok(Skipped(i, depth + 1));
    }
    if wire == 4 {
      return if depth == 0 then Err(UnexpectedEndOfGroup) else Ok(Skipped(i, depth - 1));
    }
    var next := SkipPayload(data, i, wire);
    r := match next
         case Err(e) => Err(e)
         case Ok(n) => if n < 0 then Err(InvalidLength) else Ok(Skipped(n, depth));
  }

  /** skipErc20, moving an index and a depth over the slice. */
  method Skip(data: seq<byte>) returns (r: Result<nat>)
    requires |data| <= MAX_INT
    ensures r == SkipFrom(data, 0, 0)
    ensures r.Ok? ==> r.value >= 1
  {
    var i, depth := 0, 0;
    assert data[0..] == data;
    while i < |data|
      invariant 0 <= i && 0 <= depth
      invariant SkipFrom(data, 0, 0)
                == if i < |data| then SkipFrom(data[i..], i, depth) else Err(UnexpectedEOF)
      decreases |data| - i
    {
      var k := SkipRecord(data, i, depth);
      if k.Err? {
        return Err(k.error);
      }
      assert k.value.next < |data| ==> data[i..][k.value.next - i..] == data[k.value.next..];
      i, depth := k.value.next, k.value.open;
      if depth == 0 {
        return Ok(i);
      }
    }
    return Err(UnexpectedEOF);
  }

  // ----- what every message parser does alike -------------------------------

  datatype Stepped<+M> = Stepped(msg: M, size: nat)

  /** A tag that may start a field of a message. */
  function TakeFieldTag(s: seq<byte>): (r: Result<Tag>)
    ensures r.Ok? ==> 1 <= r.value.size <= |s| && r.value.wire < 8
  {
    match TakeTag(s)
    case Err(e) => Err(e)
    case Ok(t) =>
      if t.wire == 4 then Err(EndGroupTag) else if t.num <= 0 then Err(IllegalTag) else Ok(t)
  }

  /** The size of the unknown field at the head of `s`, tag included. */
  function TakeUnknown(s: seq<byte>, at: nat): (r: Result<nat>)
    requires at + |s| <= MAX_INT
    ensures r.Ok? ==> 1 <= r.value <= |s|
  {
    match SkipFrom(s, 0, 0)
    case Err(e) => Err(e)
    case Ok(n) =>
      if Int64(at + n) < 0 then Err(InvalidLength) else if n > |s| then Err(UnexpectedEOF) else Ok(n)
  }

  method ReadFieldTag(data: seq<byte>, start: nat) returns (r: Result<Tag>)
    requires start <= |data|
    ensures r == TakeFieldTag(data[start..])
  {
    var v := ReadVarint(data, start);
    if v.Err? {
      return Err(v.error);
    }
    var num, wire := Int32(v.value.value / 8), v.value.value % 8;
    if wire == 4 {
      return Err(EndGroupTag);
    }
    if num <= 0 {
      return Err(IllegalTag);
    }
    return Ok(Tag(num, wire, v.value.size));
  }

  method ReadChunk(data: seq<byte>, start: nat) returns (r: Result<Chunk>)
    requires start <= |data| <= MAX_INT
    ensures r == TakeChunk(data[start..], start)
  {
    var v := ReadVarint(data, start);
    if v.Err? {
      return Err(v.error);
    }
    UintThenSigned(TakeVarint(data[start..], 0).value.value);
    var i, length := start + v.value.size, Int64(v.value.value);
    if length < 0 {
      return Err(InvalidLength);
    }
    var post := Int64(i + length);
    if post < 0 {
      return Err(InvalidLength);
    }
    if post > |data| {
      return Err(UnexpectedEOF);
    }
    assert data[start..][v.value.size..v.value.size + length] == data[i..post];
    return Ok(Chunk(data[i..post], post - start));
  }

  method ReadUnknown(data: seq<byte>, start: nat) returns (r: Result<nat>)
    requires start <= |data| <= MAX_INT
    ensures r == TakeUnknown(data[start..], start)
  {
    var skippy := Skip(data[start..]);
    if skippy.Err? {
      return Err(skippy.error);
    }
    if skippy.value < 0 || Int64(start + skippy.value) < 0 {
      return Err(InvalidLength);
    }
    if Int64(start + skippy.value) > |data| {
      return Err(UnexpectedEOF);
    }
    return Ok(skippy.value);
  }
}
