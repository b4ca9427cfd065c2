/** The part of Go's `math` package and of the float64 type that the metric
    models use: classification (`math.IsNaN`, `math.IsInf`), the comparisons
    `==` and `>` and the constant `math.MaxFloat64`.

    A float64 is modelled by the kinds of floating-point datum of IEEE
    754-2008 section 3: a finite number, NaN, and the two infinities. No
    rounding and no bit-level representation are modelled: the metric
    constructors never compute with floats, they only classify, compare and
    replace them. */
module Float64 {

  datatype Float64 = Finite(r: real) | NaN | PosInf | NegInf

  /** 2^n, exactly. */
  function Pow2(n: nat): (p: nat)
    ensures p >= 1
  {
    if n == 0 then 1 else 2 * Pow2(n - 1)
  }

  lemma {:induction false} Pow2Monotone(a: nat, b: nat)
    requires a <= b
    ensures Pow2(a) <= Pow2(b)
  {
    if a < b {
      Pow2Monotone(a, b - 1);
    }
  }

  lemma MulMonotone(a: nat, b: nat, c: nat, d: nat)
    requires a <= c && b <= d
    ensures a * b <= c * d
  {
  }

  lemma {:induction false} Pow2Add(a: nat, b: nat)
    ensures Pow2(a + b) == Pow2(a) * Pow2(b)
  {
    if a > 0 {
      Pow2Add(a - 1, b);
    }
  }

  /** binary64 has 53-bit significands; with the significand read as an
      integer, the largest exponent is emax - 52 = 1023 - 52 = 971. */
  const Precision: nat := 53
  const MaxExponent: nat := 971

  /** The largest finite number of a binary format whose integral
      significands are below 2^precision and whose exponents reach
      maxExponent: the largest significand at the largest exponent. */
  function MaxFinite(precision: nat, maxExponent: nat): real {
    ((Pow2(precision) - 1) * Pow2(maxExponent)) as real
  }

  /** Go defines `math.MaxFloat64` as the exact constant expression
      `0x1p1023 * (1 + (1 - 0x1p-52))` = 2^1024 - 2^971 = (2^53 - 1) * 2^971. */
  const MaxFloat64: real := MaxFinite(Precision, MaxExponent)

  /** The largest finite number is 2^(precision + maxExponent) - 2^maxExponent. */
  lemma MaxFiniteExpanded(precision: nat, maxExponent: nat)
    ensures MaxFinite(precision, maxExponent)
         == (Pow2(precision + maxExponent) - Pow2(maxExponent)) as real
  {
    var top, low := Pow2(precision), Pow2(maxExponent);
    Pow2Add(precision, maxExponent);
    assert (top - 1) * low == top * low - low;
  }

  /** `math.MaxFloat64` is 2^1024 - 2^971, the value of Go's
      `0x1p1023 * (1 + (1 - 0x1p-52))`, and also (2^53 - 1) * 2^971. */
  lemma MaxFloat64Value()
    ensures MaxFloat64 == (Pow2(Precision + MaxExponent) - Pow2(MaxExponent)) as real
  {
    MaxFiniteExpanded(Precision, MaxExponent);
  }

  /** No number m * 2^e of the format with e >= 0 exceeds its largest finite
      number, and that number is at least 1. */
  lemma MaxFiniteIsLargest(precision: nat, maxExponent: nat, m: nat, e: nat)
    requires 0 < precision
    requires m < Pow2(precision) && e <= maxExponent
    ensures (m * Pow2(e)) as real <= MaxFinite(precision, maxExponent)
    ensures MaxFinite(precision, maxExponent) >= 1.0
  {
    var top, low := Pow2(precision) - 1, Pow2(maxExponent);
    assert Pow2(precision) == 2 * Pow2(precision - 1);
    Pow2Monotone(e, maxExponent);
    MulMonotone(m, Pow2(e), top, low);
    MulMonotone(1, 1, top, low);
  }

  /** The number with integral significand m and exponent e: m * 2^e. */
  function Scale(m: nat, e: int): real {
    if e >= 0 then (m * Pow2(e)) as real else m as real / Pow2(-e) as real
  }

  lemma DivideByAtLeastOne(x: real, d: real)
    requires x >= 0.0 && d >= 1.0
    ensures x / d <= x
  {
  }

  /** No number m * 2^e of the format, for any exponent e <= maxExponent,
      exceeds its largest finite number. */
  lemma MaxFiniteBoundsScale(precision: nat, maxExponent: nat, m: nat, e: int)
    requires 0 < precision
    requires m < Pow2(precision) && e <= maxExponent
    ensures Scale(m, e) <= MaxFinite(precision, maxExponent)
    ensures MaxFinite(precision, maxExponent) >= 1.0
  {
    if e >= 0 {
      MaxFiniteIsLargest(precision, maxExponent, m, e);
    } else {
      MaxFiniteIsLargest(precision, maxExponent, m, 0);
      DivideByAtLeastOne(m as real, Pow2(-e) as real);
    }
  }

  /** `math.MaxFloat64` is the largest finite binary64 number: no significand
      m < 2^53 scaled by 2^e, for any exponent e <= 971 (negative exponents,
      the numbers below 1, included), exceeds it. It is itself at least 1. */
  lemma MaxFloat64IsLargestFinite(m: nat, e: int)
    requires m < Pow2(Precision) && e <= MaxExponent
    ensures Scale(m, e) <= MaxFloat64
    ensures MaxFloat64 >= 1.0
  {
    MaxFiniteBoundsScale(Precision, MaxExponent, m, e);
  }

  /** `math.MaxFloat64` is positive, at least 1. */
  lemma MaxFloat64AtLeastOne()
    ensures MaxFloat64 >= 1.0
  {
    MaxFloat64IsLargestFinite(0, 0);
  }

  /** A value within float64's range: NaN, an infinity, or a finite number no
      larger in magnitude than `math.MaxFloat64`. */
  predicate IsFloat64(f: Float64) {
    f.Finite? ==> -MaxFloat64 <= f.r <= MaxFloat64
  }

  /** Go's `a == b` on float64: false whenever either side is NaN, otherwise
      equality of the values. */
  function Eq(a: Float64, b: Float64): (equal: bool)
    ensures a.NaN? || b.NaN? ==> !equal
    ensures equal <==> a == b && !a.NaN?
  {
    match (a, b)
    case (NaN, _) => false
    case (_, NaN) => false
    case _ => a == b
  }

  /** Go's `math.IsNaN(f)`: whether f is an IEEE 754 "not-a-number" value.
      Go implements it as `f != f`, which holds of NaN alone. */
  function IsNaN(f: Float64): (nan: bool)
    ensures nan <==> !Eq(f, f)
  {
    f.NaN?
  }

  /** Go's `math.IsInf(f, sign)`: whether f is an infinity according to sign,
      +Inf when sign > 0, -Inf when sign < 0, either when sign == 0. Go
      implements it as `sign >= 0 && f > MaxFloat64 || sign <= 0 && f < -MaxFloat64`,
      which agrees on every value within float64's range. */
  function IsInf(f: Float64, sign: int): (inf: bool)
    ensures IsFloat64(f) ==>
      (inf <==> (sign >= 0 && Gt(f, Finite(MaxFloat64))) || (sign <= 0 && Gt(Finite(-MaxFloat64), f)))
    ensures inf ==> !IsNaN(f) && !f.Finite?
  {
    (sign >= 0 && f.PosInf?) || (sign <= 0 && f.NegInf?)
  }

  /** Go's `a > b` on float64: false whenever either side is NaN, otherwise
      the usual order of the extended reals. */
  function Gt(a: Float64, b: Float64): (greater: bool)
    ensures greater ==> !IsNaN(a) && !IsNaN(b) && a != b
    ensures a.Finite? && b.Finite? ==> (greater <==> a.r > b.r)
    ensures a.PosInf? && !b.PosInf? && !IsNaN(b) ==> greater
    ensures a.NegInf? ==> !greater
  {
    match (a, b)
    case (NaN, _) => false
    case (_, NaN) => false
    case (PosInf, PosInf) => false
    case (PosInf, _) => true
    case (_, PosInf) => false
    case (NegInf, _) => false
    case (_, NegInf) => true
    case (Finite(x), Finite(y)) => x > y
  }

  /** The IEEE comparison is a strict order on everything but NaN. */
  lemma GtStrictOrder(a: Float64, b: Float64, c: Float64)
    ensures !Gt(a, a)
    ensures Gt(a, b) ==> !Gt(b, a)
    ensures Gt(a, b) && Gt(b, c) ==> Gt(a, c)
    ensures !IsNaN(a) && !IsNaN(b) && a != b ==> Gt(a, b) || Gt(b, a)
  {
  }
}
