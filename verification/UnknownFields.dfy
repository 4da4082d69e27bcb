/**
 The grammar of fields on the wire, groups nested to any depth and varints in any of their
 spellings, and the proof that the skipper passes exactly over such fields and over nothing else.
 */
module UnknownFields {
  import opened GoInts
  import opened Varints
  import opened Wire

  type FieldNumber = n: int | 1 <= n < 0x8000_0000 witness 1

  function EncodeTag(num: FieldNumber, wire: nat): (s: seq<byte>)
    requires wire < 8
  {
    Varint(num * 8 + wire)
  }

  /** A tag is read back with its number and wire type. */
  lemma TakesTag(num: FieldNumber, wire: nat, rest: seq<byte>)
    requires wire < 8
    ensures TakeTag(EncodeTag(num, wire) + rest) == Ok(Tag(num, wire, |EncodeTag(num, wire)|))
  {
    VarintRoundTrip(num * 8 + wire, rest);
  }

  /** A chunk is read back with its body. */
  lemma TakesChunk(body: seq<byte>, rest: seq<byte>, at: nat)
    requires at + |Varint(|body|)| + |body| + |rest| <= MAX_INT
    ensures TakeChunk(Varint(|body|) + body + rest, at) == Ok(Chunk(body, |Varint(|body|)| + |body|))
  {
    VarintRoundTrip(|body|, body + rest);
    assert Varint(|body|) + (body + rest) == Varint(|body|) + body + rest;
  }

  lemma TakeTagLocal(s: seq<byte>, t: seq<byte>)
    requires TakeTag(s).Ok?
    ensures TakeTag(s + t) == TakeTag(s)
  {
    TakeVarintLocal(s, t, 0);
  }

  lemma TakeChunkLocal(s: seq<byte>, t: seq<byte>, at: nat)
    requires TakeChunk(s, at).Ok?
    ensures TakeChunk(s + t, at) == TakeChunk(s, at)
  {
    TakeVarintLocal(s, t, 0);
    var size, n := TakeVarint(s, 0).value.size, TakeChunk(s, at).value.size;
    assert (s + t)[size..n] == s[size..n];
  }

  lemma SkipStepLocal(s: seq<byte>, t: seq<byte>, at: nat, depth: nat)
    requires at + |s| + |t| <= MAX_INT
    requires SkipStep(s, at, depth).Ok?
    ensures SkipStep(s + t, at, depth) == SkipStep(s, at, depth)
  {
    TakeTagLocal(s, t);
    var tag := TakeTag(s).value;
    var payload := s[tag.size..];
    assert (s + t)[tag.size..] == payload + t;
    if tag.wire == 0 || tag.wire == 2 {
      TakeVarintLocal(payload, t, 0);
    }
  }

  /** Skipping a field that ends within `s` does not look at what follows `s`. */
  lemma {:induction false} SkipLocal(s: seq<byte>, t: seq<byte>, at: nat, depth: nat)
    requires at + |s| + |t| <= MAX_INT
    requires SkipFrom(s, at, depth).Ok? && SkipFrom(s, at, depth).value <= at + |s|
    ensures SkipFrom(s + t, at, depth) == SkipFrom(s, at, depth)
    decreases |s|
  {
    hide SkipStep;
    SkipStepLocal(s, t, at, depth);
    var k := SkipStep(s, at, depth).value;
    if k.open != 0 {
      assert (s + t)[k.next - at..] == s[k.next - at..] + t;
      SkipLocal(s[k.next - at..], t, k.next, k.open);
    }
  }

  // ----- the grammar --------------------------------------------------------

  /** At most `n` digits, all but the last flagged. */
  ghost predicate IsDigits(b: seq<byte>, n: nat)
  {
    && 1 <= |b| <= n
    && b[|b| - 1] < 128
    && forall i :: 0 <= i < |b| - 1 ==> b[i] >= 128
  }

  /** A varint, not necessarily the shortest spelling of its value. */
  ghost predicate IsVarint(b: seq<byte>)
  {
    IsDigits(b, 10)
  }

  ghost function Value(b: seq<byte>): nat
  {
    if b == [] then 0 else b[0] % 128 + 128 * Value(b[1..])
  }

  datatype Field =
    | VarintField(tag: seq<byte>, v: seq<byte>)
    | Fixed64Field(tag: seq<byte>, data: seq<byte>)
    | BytesField(tag: seq<byte>, length: seq<byte>, data: seq<byte>)
    | GroupField(tag: seq<byte>, fields: seq<Field>, endTag: seq<byte>)
    | Fixed32Field(tag: seq<byte>, data: seq<byte>)

  ghost predicate IsTag(tag: seq<byte>, wire: nat)
  {
    IsVarint(tag) && Uint64(Value(tag)) % 8 == wire
  }

  function WireType(f: Field): (w: nat)
    ensures w < 6 && w != 4
  {
    match f
    case VarintField(_, _) => 0
    case Fixed64Field(_, _) => 1
    case BytesField(_, _, _) => 2
    case GroupField(_, _, _) => 3
    case Fixed32Field(_, _) => 5
  }

  ghost function Number(f: Field): int32
  {
    Int32(Uint64(Value(f.tag)) / 8)
  }

  ghost predicate WellFormed(f: Field)
  {
    && IsTag(f.tag, WireType(f))
    && match f
       case VarintField(_, v) => IsVarint(v)
       case Fixed64Field(_, data) => |data| == 8
       case BytesField(_, length, data) => IsVarint(length) && Int64(Value(length)) == |data|
       case GroupField(_, fields, endTag) => IsTag(endTag, 4) && forall g :: g in fields ==> WellFormed(g)
       case Fixed32Field(_, data) => |data| == 4
  }

  function Text(f: Field): seq<byte>
  {
    match f
    case VarintField(tag, v) => tag + v
    case Fixed64Field(tag, data) => tag + data
    case BytesField(tag, length, data) => tag + (length + data)
    case GroupField(tag, fields, endTag) => tag + (Texts(fields) + endTag)
    case Fixed32Field(tag, data) => tag + data
  }

  function Texts(fs: seq<Field>): seq<byte>
  {
    if fs == [] then [] else Text(fs[0]) + Texts(fs[1..])
  }

  // ----- varints in any spelling --------------------------------------------

  lemma {:induction false} TakesDigits(b: seq<byte>, rest: seq<byte>, k: nat)
    requires k < 10 && IsDigits(b, 10 - k)
    ensures TakeVarint(b + rest, k) == Ok(Read(Value(b), |b|))
    decreases |b|
  {
    if |b| == 1 {
      assert Value(b[1..]) == 0;
    } else {
      assert (b + rest)[1..] == b[1..] + rest;
      TakesDigits(b[1..], rest, k + 1);
    }
  }

  lemma {:induction false} ReadsDigits(s: seq<byte>, k: nat)
    requires k < 10 && TakeVarint(s, k).Ok?
    ensures var t := TakeVarint(s, k).value; IsDigits(s[..t.size], 10 - k) && Value(s[..t.size]) == t.value
    decreases |s|
  {
    var t := TakeVarint(s, k).value;
    var b := s[..t.size];
    if s[0] < 128 {
      assert b[1..] == [];
    } else {
      ReadsDigits(s[1..], k + 1);
      assert b[1..] == s[1..][..t.size - 1];
    }
  }

  lemma TakesAnyTag(tag: seq<byte>, wire: nat, rest: seq<byte>)
    requires IsTag(tag, wire)
    ensures TakeTag(tag + rest) == Ok(Tag(Int32(Uint64(Value(tag)) / 8), wire, |tag|))
  {
    TakesDigits(tag, rest, 0);
  }

  lemma ReadsTag(s: seq<byte>)
    requires TakeTag(s).Ok?
    ensures var t := TakeTag(s).value;
            IsTag(s[..t.size], t.wire) && Int32(Uint64(Value(s[..t.size])) / 8) == t.num
  {
    ReadsDigits(s, 0);
  }

  // ----- the skipper passes over every field --------------------------------

  /** Where the skipper continues once it has passed over `s` with `depth` groups open. */
  ghost function After(rest: seq<byte>, at: nat, depth: nat): Result<nat>
    requires at + |rest| <= MAX_INT
  {
    if depth == 0 then Ok(at) else SkipFrom(rest, at, depth)
  }

  /** One round of the skipper over a tag and a payload of `n` bytes. */
  lemma SkipsRecord(tag: seq<byte>, wire: nat, payload: seq<byte>, n: nat, at: nat, depth: nat)
    requires IsTag(tag, wire) && (wire == 4 ==> depth > 0)
    requires PayloadSize(payload, wire) == Ok(n) && n <= |payload|
    requires at + |tag| + |payload| <= MAX_INT
    ensures SkipFrom(tag + payload, at, depth)
            == After(payload[n..], at + |tag| + n, if wire == 3 then depth + 1 else if wire == 4 then depth - 1 else depth)
  {
    hide TakeTag, PayloadSize, Value;
    TakesAnyTag(tag, wire, payload);
    var s := tag + payload;
    assert s[|tag|..] == payload;
    assert s[|tag| + n..] == payload[n..];
  }

  /** What follows the tag of a field that is no group. */
  ghost function Payload(f: Field): seq<byte>
    requires !f.GroupField?
  {
    match f
    case VarintField(_, v) => v
    case Fixed64Field(_, data) => data
    case BytesField(_, length, data) => length + data
    case Fixed32Field(_, data) => data
  }

  lemma LeafPayload(f: Field, rest: seq<byte>)
    requires WellFormed(f) && !f.GroupField?
    ensures PayloadSize(Payload(f) + rest, WireType(f)) == Ok(|Payload(f)|)
  {
    match f
    case VarintField(_, v) => TakesDigits(v, rest, 0);
    case BytesField(_, length, data) =>
      TakesDigits(length, data + rest, 0);
      assert Payload(f) + rest == length + (data + rest);
    case _ =>
  }

  lemma SkipsLeaf(f: Field, rest: seq<byte>, at: nat, depth: nat)
    requires WellFormed(f) && !f.GroupField?
    requires at + |Text(f)| + |rest| <= MAX_INT
    ensures SkipFrom(Text(f) + rest, at, depth) == After(rest, at + |Text(f)|, depth)
  {
    hide SkipFrom, PayloadSize, IsTag;
    var payload := Payload(f);
    LeafPayload(f, rest);
    assert Text(f) == f.tag + payload;
    SkipsRecord(f.tag, WireType(f), payload + rest, |payload|, at, depth);
    assert Text(f) + rest == f.tag + (payload + rest);
    assert (payload + rest)[|payload|..] == rest;
  }

  /** The skipper passes exactly over any well-formed field, however deeply nested. */
  lemma {:induction false} SkipsField(f: Field, rest: seq<byte>, at: nat, depth: nat)
    requires WellFormed(f)
    requires at + |Text(f)| + |rest| <= MAX_INT
    ensures SkipFrom(Text(f) + rest, at, depth) == After(rest, at + |Text(f)|, depth)
    decreases f, 1
  {
    hide SkipFrom, IsTag;
    if f.GroupField? {
      var open, inner, close := f.tag, Texts(f.fields), f.endTag;
      var tail := inner + (close + rest);
      assert Text(f) + rest == open + tail;
      SkipsRecord(open, 3, tail, 0, at, depth);
      assert tail[0..] == tail;
      SkipsFields(f, f.fields, close + rest, at + |open|, depth + 1);
      SkipsRecord(close, 4, rest, 0, at + |open| + |inner|, depth + 1);
      assert rest[0..] == rest;
    } else {
      SkipsLeaf(f, rest, at, depth);
    }
  }

  /** The fields of an open group are passed over one after the other. */
  lemma {:induction false} SkipsFields(parent: Field, fs: seq<Field>, rest: seq<byte>, at: nat, depth: nat)
    requires depth > 0
    requires forall g :: g in fs ==> WellFormed(g) && g < parent
    requires at + |Texts(fs)| + |rest| <= MAX_INT
    ensures SkipFrom(Texts(fs) + rest, at, depth) == SkipFrom(rest, at + |Texts(fs)|, depth)
    decreases parent, 0, |fs|
  {
    hide SkipFrom;
    if fs == [] {
      assert Texts(fs) + rest == rest;
    } else {
      var tail := Texts(fs[1..]) + rest;
      assert Texts(fs) + rest == Text(fs[0]) + tail;
      assert fs[0] in fs;
      SkipsField(fs[0], tail, at, depth);
      SkipsFields(parent, fs[1..], rest, at + |Text(fs[0])|, depth);
    }
  }

  // ----- and over nothing else ----------------------------------------------

  /** The rest of an open group: fields and the tag that closes it. */
  datatype Segment = Segment(fields: seq<Field>, endTag: seq<byte>)

  ghost predicate WellClosed(g: Segment)
  {
    IsTag(g.endTag, 4) && forall f :: f in g.fields ==> WellFormed(f)
  }

  /** The text that closes as many groups as there are segments. */
  function Closing(gs: seq<Segment>): seq<byte>
  {
    if gs == [] then [] else Texts(gs[0].fields) + gs[0].endTag + Closing(gs[1..])
  }

  ghost function Prepend(f: Field, gs: seq<Segment>): seq<Segment>
    requires gs != []
  {
    [Segment([f] + gs[0].fields, gs[0].endTag)] + gs[1..]
  }

  lemma PrependText(f: Field, gs: seq<Segment>)
    requires gs != []
    ensures Closing(Prepend(f, gs)) == Text(f) + Closing(gs)
  {
    assert ([f] + gs[0].fields)[1..] == gs[0].fields;
    assert Prepend(f, gs)[1..] == gs[1..];
  }

  lemma StepSize(s: seq<byte>, at: nat, depth: nat) returns (m: nat)
    requires at + |s| <= MAX_INT && SkipStep(s, at, depth).Ok? && TakeTag(s).value.wire != 4
    ensures var t := TakeTag(s).value;
            && PayloadSize(s[t.size..], t.wire) == Ok(m)
            && SkipStep(s, at, depth).value.next == at + t.size + m
            && (t.wire != 3 ==> SkipStep(s, at, depth).value.open == depth)
  {
    hide TakeTag;
    m := PayloadSize(s[TakeTag(s).value.size..], TakeTag(s).value.wire).value;
  }

  /** A tag and a payload of the size the skipper takes it for make up a field. */
  lemma LeafOf(tag: seq<byte>, wire: nat, rest: seq<byte>, m: nat) returns (f: Field)
    requires IsTag(tag, wire) && wire != 3 && wire != 4
    requires PayloadSize(rest, wire) == Ok(m) && m <= |rest|
    ensures WellFormed(f) && Text(f) == tag + rest[..m]
  {
    hide IsTag, Value, TakeVarint, IsDigits;
    if wire == 0 {
      ReadsDigits(rest, 0);
      f := VarintField(tag, rest[..m]);
    } else if wire == 1 {
      f := Fixed64Field(tag, rest[..m]);
    } else if wire == 2 {
      ReadsDigits(rest, 0);
      var size := TakeVarint(rest, 0).value.size;
      f := BytesField(tag, rest[..size], rest[size..m]);
      assert rest[..m] == rest[..size] + rest[size..m];
    } else {
      f := Fixed32Field(tag, rest[..m]);
    }
  }

  lemma ReadsLeaf(s: seq<byte>, at: nat, depth: nat) returns (f: Field)
    requires at + |s| <= MAX_INT && SkipStep(s, at, depth).Ok? && SkipStep(s, at, depth).value.next <= at + |s|
    requires TakeTag(s).value.wire != 3 && TakeTag(s).value.wire != 4
    ensures WellFormed(f) && Text(f) == s[..SkipStep(s, at, depth).value.next - at]
    ensures SkipStep(s, at, depth).value.open == depth
  {
    var t := TakeTag(s).value;
    var m := StepSize(s, at, depth);
    hide IsTag, TakeTag, SkipStep, WellFormed, Text, PayloadSize;
    ReadsTag(s);
    f := LeafOf(s[..t.size], t.wire, s[t.size..], m);
    assert s[..t.size + m] == s[..t.size] + s[t.size..][..m];
  }

  lemma ReadsMarker(s: seq<byte>, at: nat, depth: nat)
    requires at + |s| <= MAX_INT && SkipStep(s, at, depth).Ok?
    requires TakeTag(s).value.wire == 3 || TakeTag(s).value.wire == 4
    ensures var t, k := TakeTag(s).value, SkipStep(s, at, depth).value;
            && IsTag(s[..t.size], t.wire) && k.next == at + t.size
            && (t.wire == 3 ==> k.open == depth + 1)
            && (t.wire == 4 ==> depth > 0 && k.open == depth - 1)
  {
    ReadsTag(s);
    hide IsTag, Value, TakeTag;
  }

  lemma TakenWire(s: seq<byte>, at: nat, depth: nat) returns (wire: nat)
    requires at + |s| <= MAX_INT && SkipStep(s, at, depth).Ok?
    ensures TakeTag(s).Ok? && wire == TakeTag(s).value.wire
  {
    wire := TakeTag(s).value.wire;
  }

  lemma GroupFormed(f: Field)
    requires f.GroupField? && IsTag(f.tag, 3) && WellClosed(Segment(f.fields, f.endTag))
    ensures WellFormed(f)
  {
  }

  lemma GroupText(f: Field, rest: seq<byte>)
    requires f.GroupField?
    ensures Text(f) + rest == f.tag + (Texts(f.fields) + f.endTag + rest)
  {
  }

  ghost predicate AllClosed(gs: seq<Segment>)
  {
    forall g :: g in gs ==> WellClosed(g)
  }

  lemma ClosesAfterField(f: Field, gs: seq<Segment>)
    requires WellFormed(f) && gs != [] && AllClosed(gs)
    ensures AllClosed(Prepend(f, gs)) && Closing(Prepend(f, gs)) == Text(f) + Closing(gs)
  {
    hide WellFormed, IsTag, Text;
    assert gs[0] in gs;
    PrependText(f, gs);
  }

  lemma ClosesAfterGroup(tag: seq<byte>, gs: seq<Segment>) returns (out: seq<Segment>)
    requires IsTag(tag, 3) && |gs| >= 2 && AllClosed(gs)
    ensures |out| == |gs| - 1 && AllClosed(out) && Closing(out) == tag + Closing(gs)
  {
    hide IsTag, WellFormed;
    assert gs[0] in gs;
    var f := GroupField(tag, gs[0].fields, gs[0].endTag);
    GroupFormed(f);
    ClosesAfterField(f, gs[1..]);
    GroupText(f, Closing(gs[1..]));
    out := Prepend(f, gs[1..]);
  }

  lemma ClosesOne(tag: seq<byte>, gs: seq<Segment>)
    requires IsTag(tag, 4) && AllClosed(gs)
    ensures AllClosed([Segment([], tag)] + gs) && Closing([Segment([], tag)] + gs) == tag + Closing(gs)
  {
    hide IsTag;
    assert ([Segment([], tag)] + gs)[1..] == gs;
  }

  /** What the skipper passes over with groups open closes exactly those groups. */
  lemma {:induction false} ReadsClosing(s: seq<byte>, n: nat, at: nat, depth: nat) returns (gs: seq<Segment>)
    requires at + |s| <= MAX_INT && n <= |s| && depth > 0 && SkipFrom(s, at, depth) == Ok(at + n)
    ensures |gs| == depth && AllClosed(gs) && Closing(gs) == s[..n]
    decreases |s|
  {
    hide SkipStep, WellFormed, IsTag, Text, AllClosed, Closing, TakeTag;
    var k := SkipStep(s, at, depth).value;
    var done := k.next - at;
    var wire := TakenWire(s, at, depth);
    var head, tail := s[..done], s[done..];
    if wire != 3 && wire != 4 {
      var f := ReadsLeaf(s, at, depth);
      var rest := ReadsClosing(tail, n - done, k.next, depth);
      gs := Prepend(f, rest);
      ClosesAfterField(f, rest);
    } else {
      ReadsMarker(s, at, depth);
      var rest := [];
      if wire == 3 {
        rest := ReadsClosing(tail, n - done, k.next, depth + 1);
        gs := ClosesAfterGroup(head, rest);
      } else {
        if depth == 1 {
          NothingOpen();
        } else {
          rest := ReadsClosing(tail, n - done, k.next, depth - 1);
        }
        ClosesOne(head, rest);
        gs := [Segment([], head)] + rest;
      }
    }
    assert s[..n] == head + tail[..n - done];
  }

  lemma NothingOpen()
    ensures AllClosed([]) && Closing([]) == []
  {
  }

  /** Whatever the skipper passes over is a well-formed field. */
  lemma ReadsField(s: seq<byte>, n: nat, at: nat) returns (f: Field)
    requires at + |s| <= MAX_INT && n <= |s| && SkipFrom(s, at, 0) == Ok(at + n)
    ensures WellFormed(f) && Text(f) == s[..n]
  {
    hide SkipStep, WellFormed, IsTag, Text, TakeTag;
    var k := SkipStep(s, at, 0).value;
    var done := k.next - at;
    var wire := TakenWire(s, at, 0);
    if wire != 3 && wire != 4 {
      f := ReadsLeaf(s, at, 0);
    } else {
      ReadsMarker(s, at, 0);
      var rest := ReadsClosing(s[done..], n - done, k.next, 1);
      assert rest[0] in rest;
      f := GroupField(s[..done], rest[0].fields, rest[0].endTag);
      GroupFormed(f);
      GroupText(f, []);
      assert Text(f) + [] == Text(f);
      assert rest[1..] == [];
      assert s[..n] == s[..done] + s[done..][..n - done];
      assert Closing(rest) == Texts(f.fields) + f.endTag + [];
    }
  }

  // ----- fields as message parsers read them --------------------------------

  /** A field that may stand in a message. */
  ghost predicate Numbered(f: Field)
  {
    WellFormed(f) && Number(f) > 0
  }

  lemma TakesFieldTagOf(f: Field, rest: seq<byte>)
    requires Numbered(f)
    ensures TakeFieldTag(Text(f) + rest) == Ok(Tag(Number(f), WireType(f), |f.tag|)) && |f.tag| <= |Text(f)|
  {
    hide TakeTag, IsTag;
    var s := Text(f) + rest;
    assert s == f.tag + s[|f.tag|..];
    TakesAnyTag(f.tag, WireType(f), s[|f.tag|..]);
  }

  lemma TakesAnyChunk(length: seq<byte>, data: seq<byte>, rest: seq<byte>, at: nat)
    requires IsVarint(length) && Int64(Value(length)) == |data| && at + |length| + |data| + |rest| <= MAX_INT
    ensures TakeChunk(length + data + rest, at) == Ok(Chunk(data, |length| + |data|))
  {
    hide TakeVarint, Value, IsDigits, Int64;
    TakesDigits(length, data + rest, 0);
    assert length + (data + rest) == length + data + rest;
  }

  lemma ReadsChunkOf(s: seq<byte>, at: nat) returns (length: seq<byte>, data: seq<byte>)
    requires TakeChunk(s, at).Ok?
    ensures IsVarint(length) && Int64(Value(length)) == |data| && s[..TakeChunk(s, at).value.size] == length + data
    ensures data == TakeChunk(s, at).value.body
  {
    hide TakeVarint, Value, IsDigits, Int64;
    ReadsDigits(s, 0);
    var size, n := TakeVarint(s, 0).value.size, TakeChunk(s, at).value.size;
    length, data := s[..size], s[size..n];
    assert s[..n] == length + data;
  }

  /** An unknown field is passed over whole, wherever it stands. */
  lemma TakesUnknown(f: Field, rest: seq<byte>, at: nat)
    requires WellFormed(f) && at + |Text(f)| + |rest| <= MAX_INT
    ensures TakeUnknown(Text(f) + rest, at) == Ok(|Text(f)|)
  {
    hide SkipFrom, Text;
    SkipsField(f, rest, 0, 0);
    TextNotEmpty(f);
  }

  lemma TextNotEmpty(f: Field)
    requires WellFormed(f)
    ensures |Text(f)| >= 1
  {
  }

  lemma ReadsUnknown(s: seq<byte>, at: nat) returns (f: Field)
    requires at + |s| <= MAX_INT && TakeUnknown(s, at).Ok? && TakeTag(s).Ok?
    ensures WellFormed(f) && Text(f) == s[..TakeUnknown(s, at).value] && Number(f) == TakeTag(s).value.num
  {
    hide SkipFrom, TakeTag, IsTag, Text;
    var n := TakeUnknown(s, at).value;
    f := ReadsField(s, n, 0);
    SameNumber(f, s, n);
  }

  lemma SameNumber(f: Field, s: seq<byte>, n: nat)
    requires WellFormed(f) && n <= |s| && Text(f) == s[..n] && TakeTag(s).Ok?
    ensures Number(f) == TakeTag(s).value.num
  {
    hide TakeTag, IsTag, Value;
    assert s == f.tag + s[|f.tag|..];
    TakesAnyTag(f.tag, WireType(f), s[|f.tag|..]);
  }

  lemma {:induction false} TextsAppend(fs: seq<Field>, gs: seq<Field>)
    ensures Texts(fs + gs) == Texts(fs) + Texts(gs)
    decreases |fs|
  {
    hide Text;
    if fs == [] {
      assert fs + gs == gs;
    } else {
      assert (fs + gs)[1..] == fs[1..] + gs;
      TextsAppend(fs[1..], gs);
    }
  }
}
