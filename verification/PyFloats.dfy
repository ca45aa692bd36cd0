/** IEEE 754 doubles by their bit pattern, and the exact widening of half and single precision. */
module PyFloats {
  import opened Octets

  type Bits64 = n: int | 0 <= n < TWO_TO_THE_64

  const TWO_TO_THE_52: int := 0x10_0000_0000_0000

  function Double(sign: int, exponent: int, mantissa: int): (r: Bits64)
    requires 0 <= sign < 2 && 0 <= exponent < 2048 && 0 <= mantissa < TWO_TO_THE_52
  {
    sign * 0x8000_0000_0000_0000 + exponent * TWO_TO_THE_52 + mantissa
  }

  function Sign(bits: Bits64): int { bits / 0x8000_0000_0000_0000 }
  function Exponent(bits: Bits64): int { bits / TWO_TO_THE_52 % 2048 }
  function Mantissa(bits: Bits64): int { bits % TWO_TO_THE_52 }

  function Pow2(k: nat): (r: nat)
    ensures r >= 1
  {
    if k == 0 then 1 else 2 * Pow2(k - 1)
  }

  lemma NormaliseStep(m: nat, k: nat)
    requires k > 0
    ensures (2 * m) * Pow2(k - 1) == m * Pow2(k)
  {
  }

  /** Shifts a subnormal mantissa up to its leading one: at most `k` places. */
  function Normalise(m: nat, exponent: nat, limit: nat, k: nat): (r: (nat, nat))
    requires m < 2 * limit && m * Pow2(k) >= limit && exponent >= k
    ensures limit <= r.0 < 2 * limit && exponent - k <= r.1 <= exponent
    decreases k
  {
    if m >= limit then (m, exponent)
    else
      assert k > 0;
      NormaliseStep(m, k);
      Normalise(2 * m, exponent - 1, limit, k - 1)
  }

  /**
   A smaller format: `limit` is two to the number of mantissa bits, `scale` what a mantissa is multiplied by
   in a double, `rebias` the difference of the exponent biases.
   */
  datatype Format = Format(bits: nat, limit: nat, scale: nat, maxExponent: nat, rebias: nat)

  predicate FitsDouble(f: Format) {
    && f.limit == Pow2(f.bits) && f.bits <= 52 && f.scale == Pow2(52 - f.bits)
    && f.limit * f.scale == TWO_TO_THE_52
    && f.bits < f.rebias && 0 < f.maxExponent && f.maxExponent + f.rebias < 2047
  }

  const HALF := Format(10, 0x400, 0x400_0000_0000, 31, 1008)
  const SINGLE := Format(23, 0x80_0000, 0x2000_0000, 255, 896)

  lemma FormatsFit()
    ensures FitsDouble(HALF) && FitsDouble(SINGLE)
  {
    assert Pow2(10) == 0x400;
    assert Pow2(20) == 0x10_0000;
    assert Pow2(29) == 0x2000_0000;
    assert Pow2(42 - 9) == 0x2_0000_0000;
  }

  lemma ScaleBelow(n: nat, limit: nat, p: nat)
    requires n < limit && p > 0
    ensures 0 <= n * p < limit * p
  {
  }

  lemma ScaleAtLeast(n: nat, p: nat)
    requires n > 0
    ensures n * p >= p
  {
  }

  function Widen(f: Format, sign: nat, e: nat, m: nat): Bits64
    requires FitsDouble(f) && sign < 2 && e <= f.maxExponent && m < f.limit
  {
    ScaleBelow(m, f.limit, f.scale);
    if e == f.maxExponent then Double(sign, 2047, m * f.scale)
    else if e > 0 then Double(sign, e + f.rebias, m * f.scale)
    else if m == 0 then Double(sign, 0, 0)
    else
      ScaleAtLeast(m, f.limit);
      var (n, exponent) := Normalise(m, f.rebias + 1, f.limit, f.bits);
      ScaleBelow(n - f.limit, f.limit, f.scale);
      Double(sign, exponent, (n - f.limit) * f.scale)
  }

  function WidenHalf(x: nat): Bits64
    requires x < 0x1_0000
  {
    FormatsFit();
    Widen(HALF, x / 0x8000, x / 0x400 % 32, x % 0x400)
  }

  function WidenSingle(x: nat): Bits64
    requires x < 0x1_0000_0000
  {
    FormatsFit();
    Widen(SINGLE, x / 0x8000_0000, x / 0x80_0000 % 256, x % 0x80_0000)
  }

  // ------------------------------------------------- numeric value of a double

  function TwoTo(k: int): (r: real)
    ensures r > 0.0
    decreases if k < 0 then -k else k
  {
    if k == 0 then 1.0 else if k > 0 then 2.0 * TwoTo(k - 1) else TwoTo(k + 1) / 2.0
  }

  predicate IsFinite(bits: Bits64) { Exponent(bits) != 2047 }
  predicate IsNaN(bits: Bits64) { Exponent(bits) == 2047 && Mantissa(bits) != 0 }

  function Signed(sign: int, x: real): real {
    if sign == 0 then x else -x
  }

  /** A whole number times a power of two. */
  function Scaled(n: nat, k: int): real {
    n as real * TwoTo(k)
  }

  /** The number a finite double stands for. */
  function Number(bits: Bits64): real
    requires IsFinite(bits)
  {
    Signed(Sign(bits), if Exponent(bits) == 0 then Scaled(Mantissa(bits), -1074)
                       else Scaled(Mantissa(bits) + TWO_TO_THE_52, Exponent(bits) - 1075))
  }

  // ------------------------------------------------------ widening is exact

  /** The number a finite pattern of a smaller format stands for. */
  function SmallNumber(f: Format, sign: nat, e: nat, m: nat): real {
    Signed(sign, if e == 0 then Scaled(m, 1 + f.rebias - 1023 - f.bits)
                 else Scaled(m + f.limit, e + f.rebias - 1023 - f.bits))
  }

  lemma FieldsOfDouble(sign: int, exponent: int, mantissa: int)
    requires 0 <= sign < 2 && 0 <= exponent < 2048 && 0 <= mantissa < TWO_TO_THE_52
    ensures Sign(Double(sign, exponent, mantissa)) == sign
    ensures Exponent(Double(sign, exponent, mantissa)) == exponent
    ensures Mantissa(Double(sign, exponent, mantissa)) == mantissa
  {
    var d := Double(sign, exponent, mantissa);
    assert d == (sign * 2048 + exponent) * TWO_TO_THE_52 + mantissa;
    assert d / TWO_TO_THE_52 == sign * 2048 + exponent;
  }

  lemma {:induction false} TwoToAdds(j: int, k: nat)
    ensures TwoTo(j + k) == TwoTo(j) * Pow2(k) as real
    decreases k
  {
    hide TwoTo;
    if k == 0 {
      assert Pow2(k) as real == 1.0 && TwoTo(j) * 1.0 == TwoTo(j);
    } else {
      hide *;
      TwoToAdds(j, k - 1);
      TwoToSteps(j + k - 1);
      Pow2Steps(k - 1);
      MovesTwo(TwoTo(j + k - 1), TwoTo(j), Pow2(k - 1) as real);
      assert j + k - 1 + 1 == j + k;
    }
  }

  lemma TwoToSteps(j: int)
    ensures TwoTo(j + 1) == 2.0 * TwoTo(j)
  {
  }

  lemma Pow2Steps(k: nat)
    ensures Pow2(k + 1) as real == 2.0 * Pow2(k) as real
  {
  }

  lemma MovesTwo(x: real, y: real, z: real)
    requires x == y * z
    ensures 2.0 * x == y * (2.0 * z)
  {
  }

  lemma Associates(n: nat, p: nat, a: real)
    ensures (n * p) as real * a == n as real * (a * p as real)
  {
    assert (n * p) as real == n as real * p as real;
  }

  lemma NormaliseUnfolds(m: nat, exponent: nat, limit: nat, k: nat)
    requires m < limit && m * Pow2(k) >= limit && exponent >= k
    ensures k > 0 && (2 * m) * Pow2(k - 1) >= limit
    ensures Normalise(m, exponent, limit, k) == Normalise(2 * m, exponent - 1, limit, k - 1)
  {
    assert k > 0;
    NormaliseStep(m, k);
    hide Pow2;
  }

  /** Normalising trades the mantissa against the exponent. */
  lemma {:induction false} NormaliseKeepsValue(m: nat, exponent: nat, limit: nat, k: nat, bias: int)
    requires m < 2 * limit && m * Pow2(k) >= limit && exponent >= k
    ensures var (n, f) := Normalise(m, exponent, limit, k);
            Scaled(n, f + bias) == Scaled(m, exponent + bias)
    decreases k
  {
    hide Pow2, Scaled;
    if m < limit {
      NormaliseUnfolds(m, exponent, limit, k);
      hide *;
      NormaliseKeepsValue(2 * m, exponent - 1, limit, k - 1, bias);
      DoubleScaled(m, exponent + bias);
      assert exponent - 1 + bias == exponent + bias - 1;
    }
  }

  lemma DoubleScaled(m: nat, k: int)
    ensures Scaled(2 * m, k - 1) == Scaled(m, k)
  {
    hide TwoTo;
    TwoToSteps(k - 1);
    Associates(m, 2, TwoTo(k - 1));
    assert m * 2 == 2 * m;
  }

  /** A normal double whose mantissa, leading one included, is `n` shifted left by `shift`. */
  lemma NumberOfShifted(sign: int, exponent: int, n: nat, limit: nat, shift: nat)
    requires 0 <= sign < 2 && 0 < exponent < 2047 && limit <= n < 2 * limit
    requires limit * Pow2(shift) == TWO_TO_THE_52
    requires 0 <= (n - limit) * Pow2(shift) < TWO_TO_THE_52
    ensures var d := Double(sign, exponent, (n - limit) * Pow2(shift));
            IsFinite(d) && Number(d) == Signed(sign, Scaled(n, exponent - 1075 + shift))
  {
    hide TwoTo, Scaled, Pow2, Double, Sign, Exponent, Mantissa;
    var mantissa := (n - limit) * Pow2(shift);
    FieldsOfDouble(sign, exponent, mantissa);
    Distributes(n, limit, Pow2(shift));
    ShiftScaled(mantissa + TWO_TO_THE_52, exponent - 1075, n, shift);
  }

  lemma Distributes(n: nat, limit: nat, p: nat)
    ensures (n - limit) * p + limit * p == n * p
  {
  }

  lemma ShiftScaled(whole: nat, j: int, n: nat, shift: nat)
    requires whole == n * Pow2(shift)
    ensures Scaled(whole, j) == Scaled(n, j + shift)
  {
    hide TwoTo, Pow2;
    TwoToAdds(j, shift);
    Associates(n, Pow2(shift), TwoTo(j));
  }

  lemma Zero(sign: int)
    requires 0 <= sign < 2
    ensures IsFinite(Double(sign, 0, 0)) && Number(Double(sign, 0, 0)) == 0.0
  {
    FieldsOfDouble(sign, 0, 0);
    hide TwoTo, Double, Sign, Exponent, Mantissa;
  }

  /** A subnormal is widened by normalising it and dropping its leading one. */
  lemma WidenOfSubnormal(f: Format, sign: nat, m: nat)
    requires FitsDouble(f) && sign < 2 && 0 < m < f.limit
    ensures m * Pow2(f.bits) >= f.limit && f.limit * Pow2(52 - f.bits) == TWO_TO_THE_52
    ensures var (n, e) := Normalise(m, f.rebias + 1, f.limit, f.bits);
            && 0 < e < 2047 && f.limit <= n < 2 * f.limit
            && 0 <= (n - f.limit) * Pow2(52 - f.bits) < TWO_TO_THE_52
            && Widen(f, sign, 0, m) == Double(sign, e, (n - f.limit) * Pow2(52 - f.bits))
  {
    hide Pow2, Double, Normalise;
    ScaleAtLeast(m, f.limit);
    var (n, e) := Normalise(m, f.rebias + 1, f.limit, f.bits);
    ScaleBelow(n - f.limit, f.limit, f.scale);
  }

  lemma NumberOfSubnormal(f: Format, sign: nat, m: nat)
    requires FitsDouble(f) && sign < 2 && 0 < m < f.limit
    ensures m * Pow2(f.bits) >= f.limit && f.bits <= f.rebias + 1
    ensures var (n, e) := Normalise(m, f.rebias + 1, f.limit, f.bits);
            var d := Widen(f, sign, 0, m);
            IsFinite(d) && Number(d) == Signed(sign, Scaled(n, e - 1075 + (52 - f.bits)))
  {
    WidenOfSubnormal(f, sign, m);
    assert f.bits < f.rebias + 1 && f.bits <= 52;
    hide *;
    var (n, e) := Normalise(m, f.rebias + 1, f.limit, f.bits);
    NumberOfShifted(sign, e, n, f.limit, 52 - f.bits);
  }

  lemma SmallSubnormal(f: Format, sign: nat, m: nat, bias: int)
    requires bias == 52 - f.bits - 1075
    ensures SmallNumber(f, sign, 0, m) == Signed(sign, Scaled(m, f.rebias + 1 + bias))
  {
    hide Scaled, Signed;
  }

  lemma WidenSubnormal(f: Format, sign: nat, m: nat)
    requires FitsDouble(f) && sign < 2 && 0 < m < f.limit
    ensures IsFinite(Widen(f, sign, 0, m)) && Number(Widen(f, sign, 0, m)) == SmallNumber(f, sign, 0, m)
  {
    hide *;
    var bias := 52 - f.bits - 1075;
    NumberOfSubnormal(f, sign, m);
    SmallSubnormal(f, sign, m, bias);
    var (n, e) := Normalise(m, f.rebias + 1, f.limit, f.bits);
    NormaliseKeepsValue(m, f.rebias + 1, f.limit, f.bits, bias);
    assert e - 1075 + (52 - f.bits) == e + bias;
  }

  lemma WidenNormal(f: Format, sign: nat, e: nat, m: nat)
    requires FitsDouble(f) && sign < 2 && 0 < e < f.maxExponent && m < f.limit
    ensures IsFinite(Widen(f, sign, e, m)) && Number(Widen(f, sign, e, m)) == SmallNumber(f, sign, e, m)
  {
    hide Pow2, Double, Scaled, Number, IsFinite, Normalise;
    ScaleBelow(m, f.limit, f.scale);
    NumberOfShifted(sign, e + f.rebias, m + f.limit, f.limit, 52 - f.bits);
    assert e + f.rebias - 1075 + (52 - f.bits) == e + f.rebias - 1023 - f.bits;
  }

  /** Widening changes the representation of a finite number and never the number. */
  lemma WidenIsExact(f: Format, sign: nat, e: nat, m: nat)
    requires FitsDouble(f) && sign < 2 && e < f.maxExponent && m < f.limit
    ensures IsFinite(Widen(f, sign, e, m)) && Number(Widen(f, sign, e, m)) == SmallNumber(f, sign, e, m)
  {
    if e > 0 {
      WidenNormal(f, sign, e, m);
    } else if m > 0 {
      WidenSubnormal(f, sign, m);
    } else {
      Zero(sign);
    }
  }

  /** Infinities stay infinities of the same sign, and NaNs stay NaNs. */
  lemma WidenKeepsSpecials(f: Format, sign: nat, m: nat)
    requires FitsDouble(f) && sign < 2 && m < f.limit
    ensures var d := Widen(f, sign, f.maxExponent, m); !IsFinite(d) && Sign(d) == sign && (IsNaN(d) <==> m != 0)
  {
    ScaleBelow(m, f.limit, f.scale);
    FieldsOfDouble(sign, 2047, m * f.scale);
    if m > 0 {
      ScaleAtLeast(m, f.scale);
    }
    hide Double, Sign, Exponent, Mantissa;
  }

  // ---------------------------------------- the bit patterns of IEEE 754

  /** A double: sign in bit 63, 11 exponent bits with bias 1023, 52 fraction bits, subnormals below. */
  lemma NumberOfPattern(x: Bits64)
    ensures var e, m := x / 0x10_0000_0000_0000 % 0x800, x % 0x10_0000_0000_0000;
            && (IsFinite(x) <==> e != 0x7FF)
            && (IsNaN(x) <==> e == 0x7FF && m != 0)
            && (e != 0x7FF ==>
                  var v := if e == 0 then m as real * TwoTo(-1074)
                           else (0x10_0000_0000_0000 + m) as real * TwoTo(e - 1023 - 52);
                  Number(x) == if x < 0x8000_0000_0000_0000 then v else -v)
  {
    hide TwoTo;
    var e, m := x / 0x10_0000_0000_0000 % 0x800, x % 0x10_0000_0000_0000;
    assert Sign(x) == 0 <==> x < 0x8000_0000_0000_0000;
    assert e - 1023 - 52 == e - 1075;
  }

  /** A single: sign in bit 31, 8 exponent bits with bias 127, 23 fraction bits; its value is kept. */
  lemma WidenSingleIsExact(x: nat)
    requires x < 0x1_0000_0000 && x / 0x80_0000 % 0x100 != 0xFF
    ensures var e, m := x / 0x80_0000 % 0x100, x % 0x80_0000;
            var v := if e == 0 then m as real * TwoTo(-149) else (0x80_0000 + m) as real * TwoTo(e - 127 - 23);
            IsFinite(WidenSingle(x)) && Number(WidenSingle(x)) == if x < 0x8000_0000 then v else -v
  {
    hide *;
    SingleFields(x);
    var sign, e, m := x / 0x8000_0000, x / 0x80_0000 % 0x100, x % 0x80_0000;
    WidenIsExact(SINGLE, sign, e, m);
    SingleNumber(sign, e, m);
  }

  lemma SingleFields(x: nat)
    requires x < 0x1_0000_0000
    ensures FitsDouble(SINGLE) && SINGLE.limit == 0x80_0000 && SINGLE.maxExponent == 0xFF
    ensures x / 0x8000_0000 == if x < 0x8000_0000 then 0 else 1
    ensures WidenSingle(x) == Widen(SINGLE, x / 0x8000_0000, x / 0x80_0000 % 0x100, x % 0x80_0000)
  {
    FormatsFit();
    hide Widen, FitsDouble;
  }

  lemma SingleNumber(sign: nat, e: nat, m: nat)
    ensures var v := if e == 0 then m as real * TwoTo(-149) else (0x80_0000 + m) as real * TwoTo(e - 127 - 23);
            SmallNumber(SINGLE, sign, e, m) == if sign == 0 then v else -v
  {
    hide TwoTo;
    assert e + SINGLE.rebias - 1023 - SINGLE.bits == e - 127 - 23;
    assert m + SINGLE.limit == 0x80_0000 + m;
  }

  /** A half: sign in bit 15, 5 exponent bits with bias 15, 10 fraction bits; its value is kept. */
  lemma WidenHalfIsExact(x: nat)
    requires x < 0x1_0000 && x / 0x400 % 0x20 != 0x1F
    ensures var e, m := x / 0x400 % 0x20, x % 0x400;
            var v := if e == 0 then m as real * TwoTo(-24) else (0x400 + m) as real * TwoTo(e - 15 - 10);
            IsFinite(WidenHalf(x)) && Number(WidenHalf(x)) == if x < 0x8000 then v else -v
  {
    hide *;
    HalfFields(x);
    var sign, e, m := x / 0x8000, x / 0x400 % 0x20, x % 0x400;
    WidenIsExact(HALF, sign, e, m);
    HalfNumber(sign, e, m);
  }

  lemma HalfFields(x: nat)
    requires x < 0x1_0000
    ensures FitsDouble(HALF) && HALF.limit == 0x400 && HALF.maxExponent == 0x1F
    ensures x / 0x8000 == if x < 0x8000 then 0 else 1
    ensures WidenHalf(x) == Widen(HALF, x / 0x8000, x / 0x400 % 0x20, x % 0x400)
  {
    FormatsFit();
    hide Widen, FitsDouble;
  }

  lemma HalfNumber(sign: nat, e: nat, m: nat)
    ensures var v := if e == 0 then m as real * TwoTo(-24) else (0x400 + m) as real * TwoTo(e - 15 - 10);
            SmallNumber(HALF, sign, e, m) == if sign == 0 then v else -v
  {
    hide TwoTo;
    assert e + HALF.rebias - 1023 - HALF.bits == e - 15 - 10;
    assert m + HALF.limit == 0x400 + m;
  }

  /** Exponent field 255: an infinity of the sign of `x`, or a NaN of that sign if the fraction is not zero. */
  lemma WidenSingleKeepsSpecials(x: nat)
    requires x < 0x1_0000_0000 && x / 0x80_0000 % 0x100 == 0xFF
    ensures IsNaN(WidenSingle(x)) <==> x % 0x80_0000 != 0
    ensures x % 0x80_0000 == 0 ==>
              WidenSingle(x) == if x < 0x8000_0000 then 0x7FF0_0000_0000_0000 else 0xFFF0_0000_0000_0000
    ensures WidenSingle(x) >= 0x8000_0000_0000_0000 <==> x >= 0x8000_0000
  {
    FormatsFit();
    WidenKeepsSpecials(SINGLE, x / 0x8000_0000, x % 0x80_0000);
    SignOfPattern(WidenSingle(x));
    hide IsNaN, Sign, FitsDouble, Normalise;
  }

  /** Exponent field 31 of a half likewise. */
  lemma WidenHalfKeepsSpecials(x: nat)
    requires x < 0x1_0000 && x / 0x400 % 0x20 == 0x1F
    ensures IsNaN(WidenHalf(x)) <==> x % 0x400 != 0
    ensures x % 0x400 == 0 ==>
              WidenHalf(x) == if x < 0x8000 then 0x7FF0_0000_0000_0000 else 0xFFF0_0000_0000_0000
    ensures WidenHalf(x) >= 0x8000_0000_0000_0000 <==> x >= 0x8000
  {
    FormatsFit();
    WidenKeepsSpecials(HALF, x / 0x8000, x % 0x400);
    SignOfPattern(WidenHalf(x));
    hide IsNaN, Sign, FitsDouble, Normalise;
  }

  lemma SignOfPattern(x: Bits64)
    ensures Sign(x) == if x >= 0x8000_0000_0000_0000 then 1 else 0
  {
  }

  /** Powers of two in both directions. */
  lemma TwoToIs(k: nat)
    ensures TwoTo(0) == 1.0 && TwoTo(k) == Pow2(k) as real && TwoTo(0 - k) * Pow2(k) as real == 1.0
    ensures Pow2(0) == 1 && Pow2(k + 1) == 2 * Pow2(k)
  {
    TwoToAdds(0, k);
    TwoToAdds(0 - k, k);
  }
}
