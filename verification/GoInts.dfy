/** Go's fixed-width integers, written out over unbounded `int`. */
module GoInts {

  type byte = b: int | 0 <= b < 0x100
  type uint64 = v: int | 0 <= v < 0x1_0000_0000_0000_0000
  type int32 = v: int | -0x8000_0000 <= v < 0x8000_0000

  const MAX_INT: int := 0x7FFF_FFFF_FFFF_FFFF

  /** The value a 64-bit two's complement word holds after being assigned `v`. */
  function Int64(v: int): (r: int)
    ensures -0x8000_0000_0000_0000 <= r <= MAX_INT
    ensures -0x8000_0000_0000_0000 <= v <= MAX_INT ==> r == v
    ensures MAX_INT < v < 0x1_0000_0000_0000_0000 ==> r == v - 0x1_0000_0000_0000_0000
  {
    (v + 0x8000_0000_0000_0000) % 0x1_0000_0000_0000_0000 - 0x8000_0000_0000_0000
  }

  /** The value a 32-bit two's complement word holds after being assigned `v`. */
  function Int32(v: int): (r: int32)
    ensures -0x8000_0000 <= v < 0x8000_0000 ==> r == v
  {
    (v + 0x8000_0000) % 0x1_0000_0000 - 0x8000_0000
  }

  /** The value an unsigned 64-bit word holds after being assigned `v`. */
  function Uint64(v: int): (r: uint64)
    ensures 0 <= v < 0x1_0000_0000_0000_0000 ==> r == v
  {
    v % 0x1_0000_0000_0000_0000
  }

  /** Reducing modulo 2^64 first changes no later reduction. */
  lemma UintThenSigned(v: int)
    ensures Int64(Uint64(v)) == Int64(v)
  {
    var q := v / 0x1_0000_0000_0000_0000;
    assert v == Uint64(v) + q * 0x1_0000_0000_0000_0000;
  }

  /** The value an unsigned 32-bit word holds after being assigned `v`. */
  function Uint32(v: int): nat
  {
    v % 0x1_0000_0000
  }

  /** Quotient and remainder modulo 2^32 are unique. */
  lemma Remainder32(v: int, q: int, r: int)
    requires v == q * 0x1_0000_0000 + r && 0 <= r < 0x1_0000_0000
    ensures v % 0x1_0000_0000 == r
  {
  }

  lemma WrapBack(v: int)
    ensures Uint32(Int32(v)) == Uint32(v)
  {
    var w := v + 0x8000_0000;
    assert w == w / 0x1_0000_0000 * 0x1_0000_0000 + w % 0x1_0000_0000;
    Remainder32(Int32(v), v / 0x1_0000_0000 - w / 0x1_0000_0000, v % 0x1_0000_0000);
  }

  /** Signed and unsigned words hold the same bits. */
  lemma SameWord(v: int, w: int)
    requires Uint32(v) == Uint32(w)
    ensures Int32(v) == Int32(w)
  {
    var h, t := w + 0x8000_0000, v / 0x1_0000_0000 - w / 0x1_0000_0000;
    assert v == w + t * 0x1_0000_0000;
    Remainder32(v + 0x8000_0000, h / 0x1_0000_0000 + t, h % 0x1_0000_0000);
  }
}
