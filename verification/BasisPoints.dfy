/** The basis-point fee (x/common/deduct_fee.go), computed on 18-decimal fixed-point numbers. */
module BasisPoints {

  const BASIS_POINT_DIVISOR: int := 10000

  /** A fixed-point number: `scaled` counts units of 10^-18. */
  datatype Dec = Dec(scaled: int)

  /** Integer division that truncates toward zero. */
  function Quo(x: int, y: int): int
    requires y > 0
  {
    if x >= 0 then x / y else -(-x / y)
  }

  function NewDecFromInt(a: int): Dec { Dec(a * 1_000_000_000_000_000_000) }

  function MulInt64(d: Dec, n: int): Dec { Dec(d.scaled * n) }

  function QuoInt64(d: Dec, n: int): Dec
    requires n > 0
  {
    Dec(Quo(d.scaled, n))
  }

  function TruncateInt(d: Dec): int { Quo(d.scaled, 1_000_000_000_000_000_000) }

  function CalculateBasisPointFee(amount: int, basisPoints: nat): (fee: int)
  {
    TruncateInt(QuoInt64(MulInt64(NewDecFromInt(amount), basisPoints), BASIS_POINT_DIVISOR))
  }

  lemma ScaledProduct(a: int, bp: nat)
    ensures a * 1_000_000_000_000_000_000 * bp == a * bp * 1_000_000_000_000_000_000
  {
  }

  lemma ProductNonNegative(a: nat, bp: nat)
    ensures a * bp >= 0
  {
  }

  /** The detour over fixed-point numbers loses nothing: the fee is the floor of a*bp/10000. */
  lemma FeeIsFloor(amount: nat, bp: nat)
    ensures CalculateBasisPointFee(amount, bp) == amount * bp / 10000 >= 0
  {
    ScaledProduct(amount, bp);
    ProductNonNegative(amount, bp);
    var x := amount * bp;
    assert x * 1_000_000_000_000_000_000 / 10000 == x * 100_000_000_000_000;
    assert x * 100_000_000_000_000 / 1_000_000_000_000_000_000 == x / 10000;
  }

  lemma ProductMonotone(a: nat, b: nat, p: nat, q: nat)
    requires a <= b && p <= q
    ensures a * p <= b * q
  {
    assert a * p <= b * p <= b * q;
  }

  /** The fee grows with the amount and with the rate. */
  lemma FeeMonotone(a: nat, b: nat, p: nat, q: nat)
    requires a <= b && p <= q
    ensures CalculateBasisPointFee(a, p) <= CalculateBasisPointFee(b, q)
  {
    FeeIsFloor(a, p);
    FeeIsFloor(b, q);
    ProductMonotone(a, b, p, q);
  }

  /** At any admissible rate the fee never exceeds the amount. */
  lemma FeeBounded(a: nat, bp: nat)
    requires bp <= 10000
    ensures 0 <= CalculateBasisPointFee(a, bp) <= a
  {
    FeeIsFloor(a, bp);
    ProductMonotone(a, a, bp, 10000);
  }

  /** Splitting a payment in two saves at most one unit of fee and never costs more. */
  lemma FeeSplit(a: nat, b: nat, bp: nat)
    ensures CalculateBasisPointFee(a, bp) + CalculateBasisPointFee(b, bp) <= CalculateBasisPointFee(a + b, bp)
    ensures CalculateBasisPointFee(a + b, bp) <= CalculateBasisPointFee(a, bp) + CalculateBasisPointFee(b, bp) + 1
  {
    FeeIsFloor(a, bp);
    FeeIsFloor(b, bp);
    FeeIsFloor(a + b, bp);
    var x, y := a * bp, b * bp;
    assert (a + b) * bp == x + y;
    assert x / 10000 + y / 10000 <= (x + y) / 10000 <= x / 10000 + y / 10000 + 1;
  }

  /** A fee is charged exactly from the first amount whose product reaches 10000. */
  lemma FeePositive(a: nat, bp: nat)
    ensures CalculateBasisPointFee(a, bp) >= 1 <==> a * bp >= 10000
  {
    FeeIsFloor(a, bp);
    var x := a * bp;
    assert x / 10000 >= 1 <==> x >= 10000;
  }
}
