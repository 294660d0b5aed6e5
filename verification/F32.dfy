/** Counts as IEEE 754 single-precision bytes, the only floats discovery computes with. */
module F32 {
  import opened Prelude

  function Pow2(n: nat): (r: nat)
    ensures r >= 1
  {
    if n == 0 then 1 else 2 * Pow2(n - 1)
  }

  type Bytes4 = b: Bytes | |b| == 4 witness [0, 0, 0, 0]

  const MAX_U32: nat := 0xFFFF_FFFF

  function Word32(b: Bytes4): nat {
    (b[0] as int) + 0x100 * (b[1] as int) + 0x1_0000 * (b[2] as int) + 0x100_0000 * (b[3] as int)
  }

  /** `f32::from_le_bytes(b) as u32`: truncated, saturated, NaN as zero. */
  function ToU32(b: Bytes4): (n: nat)
  {
    FromBits(Word32(b))
  }

  /** Sign, exponent and mantissa of a single. */
  function FromBits(bits: nat): nat {
    FromParts(bits / 0x8000_0000, bits / 0x80_0000 % 256, bits % 0x80_0000)
  }

  function FromParts(sign: nat, exponent: nat, mantissa: nat): nat {
    if sign != 0 || exponent < 127 then 0
    else if exponent == 255 then if mantissa != 0 then 0 else MAX_U32
    else if exponent < 150 then Quotient(0x80_0000 + mantissa, Pow2(150 - exponent))
    else
      var n := Product(0x80_0000 + mantissa, Pow2(exponent - 150));
      if n > MAX_U32 then MAX_U32 else n
  }

  function Product(a: nat, b: nat): nat {
    a * b
  }

  function Quotient(a: nat, b: nat): nat
    requires b > 0
  {
    a / b
  }

  function LeBytes(bits: int): Bytes4 {
    [bits % 256, bits / 256 % 256, bits / 256 / 256 % 256, bits / 256 / 256 / 256 % 256]
  }

  /** The position of the highest set bit. */
  function TopBit(n: nat): nat {
    if n <= 1 then 0 else TopBit(n / 2) + 1
  }

  /** `(n as f32).to_le_bytes()`, exact below 2^24. */
  function OfNat(n: nat): Bytes4
    requires n < 0x100_0000
  {
    if n == 0 then [0, 0, 0, 0]
    else
      var p := TopBit(n);
      LeBytes((127 + p) * 0x80_0000 + (n - Pow2(p)) * Pow2(if p < 23 then 23 - p else 0))
  }

  lemma {:induction false} TopBitBounds(n: nat, k: nat)
    requires 0 < n < Pow2(k)
    ensures TopBit(n) < k && Pow2(TopBit(n)) <= n < 2 * Pow2(TopBit(n))
  {
    if n > 1 {
      TopBitBounds(n / 2, k - 1);
    }
  }

  lemma {:induction false} Pow2Sum(a: nat, b: nat)
    ensures Pow2(a) * Pow2(b) == Pow2(a + b)
  {
    if a > 0 {
      Pow2Sum(a - 1, b);
      assert Pow2(a) * Pow2(b) == 2 * (Pow2(a - 1) * Pow2(b));
    }
  }

  lemma Pow2Of23()
    ensures Pow2(23) == 0x80_0000 && Pow2(24) == 0x100_0000
  {
    assert Pow2(8) == 256 && Pow2(7) == 128;
    Pow2Sum(8, 8);
    Pow2Sum(16, 7);
    Pow2Sum(16, 8);
  }

  lemma Times(x: int, y: int, b: nat)
    ensures x <= y ==> x * b <= y * b
  {
  }

  lemma ProductQuotient(a: nat, b: nat)
    requires b > 0
    ensures a * b / b == a
  {
    var q := a * b / b;
    assert a * b == q * b + a * b % b;
    Times(q + 1, a, b);
    Times(a + 1, q, b);
  }

  lemma BytesOfBits(bits: nat)
    requires bits < 0x1_0000_0000
    ensures Word32(LeBytes(bits)) == bits
  {
  }

  lemma PartsOfBits(exponent: nat, mantissa: nat)
    requires exponent < 255 && mantissa < 0x80_0000
    ensures var bits := exponent * 0x80_0000 + mantissa;
      bits / 0x8000_0000 == 0 && bits / 0x80_0000 % 256 == exponent && bits % 0x80_0000 == mantissa
  {
  }

  lemma Normalised(n: nat)
    requires 0 < n < 0x100_0000
    ensures var p := TopBit(n);
      p <= 23 && Pow2(p) <= n < 2 * Pow2(p) && Pow2(p) * Pow2(23 - p) == 0x80_0000
  {
    Pow2Of23();
    TopBitBounds(n, 24);
    Pow2Sum(TopBit(n), 23 - TopBit(n));
  }

  /** A mantissa with its leading bit is a count shifted to 24 bits. */
  predicate Scaled(n: nat, p: nat, mantissa: nat) {
    p <= 23 && mantissa < 0x80_0000 && 0x80_0000 + mantissa == n * Pow2(23 - p)
  }

  function Normal(p: nat, mantissa: nat): Bytes4 {
    LeBytes((127 + p) * 0x80_0000 + mantissa)
  }

  /** The exponent and mantissa a count is encoded with. */
  lemma NormalParts(n: nat) returns (p: nat, mantissa: nat)
    requires 0 < n < 0x100_0000
    ensures Scaled(n, p, mantissa) && OfNat(n) == Normal(p, mantissa)
  {
    Normalised(n);
    p := TopBit(n);
    MantissaOf(n, Pow2(p), Pow2(23 - p));
    mantissa := (n - Pow2(p)) * Pow2(23 - p);
  }

  lemma ExactParts(n: nat, p: nat, mantissa: nat)
    requires p <= 23 && mantissa < 0x80_0000
    requires 0x80_0000 + mantissa == n * Pow2(23 - p) && n * Pow2(23 - p) / Pow2(23 - p) == n
    ensures FromParts(0, 127 + p, mantissa) == n
  {
  }

  lemma DecodedBits(exponent: nat, mantissa: nat)
    requires exponent < 255 && mantissa < 0x80_0000
    ensures ToU32(LeBytes(exponent * 0x80_0000 + mantissa)) == FromParts(0, exponent, mantissa)
  {
    BytesOfBits(exponent * 0x80_0000 + mantissa);
    PartsOfBits(exponent, mantissa);
  }

  lemma NormalRoundTrip(n: nat, p: nat, mantissa: nat)
    requires Scaled(n, p, mantissa)
    ensures ToU32(Normal(p, mantissa)) == n
  {
    ProductQuotient(n, Pow2(23 - p));
    ExactParts(n, p, mantissa);
    DecodedBits(127 + p, mantissa);
  }

  lemma PositiveRoundTrip(n: nat)
    requires 0 < n < 0x100_0000
    ensures ToU32(OfNat(n)) == n
  {
    var p, mantissa := NormalParts(n);
    NormalRoundTrip(n, p, mantissa);
  }

  /** A count survives the trip over the wire. */
  lemma CountRoundTrip(n: nat)
    requires n < 0x100_0000
    ensures ToU32(OfNat(n)) == n
  {
    if n > 0 {
      PositiveRoundTrip(n);
    }
  }

  lemma MantissaOf(n: nat, top: nat, scale: nat)
    requires top <= n < 2 * top && top * scale == 0x80_0000
    ensures 0 <= (n - top) * scale < 0x80_0000
    ensures 0x80_0000 + (n - top) * scale == n * scale
  {
  }

  /** A number from 1 up to 2^23 is cut off to the whole number below. */
  lemma FractionsAreCut(exponent: nat, mantissa: nat, n: nat)
    requires 127 <= exponent < 150 && mantissa < 0x80_0000
    ensures var unit := Pow2(150 - exponent);
      FromParts(0, exponent, mantissa) == n <==> n * unit <= 0x80_0000 + mantissa < (n + 1) * unit
  {
    QuotientIs(0x80_0000 + mantissa, Pow2(150 - exponent), n);
  }

  lemma QuotientIs(a: nat, b: nat, n: nat)
    requires b > 0
    ensures a / b == n <==> n * b <= a < (n + 1) * b
  {
    assert a == a / b * b + a % b;
    Times(n + 1, a / b, b);
    Times(a / b + 1, n, b);
  }

  /** A negative number, one below 1 and no number at all are 0; an infinite one is the largest count. */
  lemma OddNumbers(sign: nat, exponent: nat, mantissa: nat)
    ensures sign == 1 || exponent < 127 || (exponent == 255 && mantissa != 0) ==> FromParts(sign, exponent, mantissa) == 0
    ensures FromParts(0, 255, 0) == MAX_U32
  {
  }
}
