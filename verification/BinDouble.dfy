/** The mantissa and exponent form of a double. Powers, products and quotients are those of float64:
    exact on the numbers that occur here, except where they overflow or fall below the smallest
    double. The library's logarithm is a parameter, of which only its accuracy is assumed. */
module BinDouble {
  import opened Collections

  datatype Double = NaN | Inf(negative: bool) | Finite(r: real)

  /** The exponent the library's logarithm gives for a positive number. */
  type Log = real -> int

  const INT_MIN := -0x8000_0000
  const INT_MAX := 0x7FFF_FFFF
  const SCALE := 1073741824.0

  function Abs(r: real): real { if r < 0.0 then -r else r }

  // ----- products, kept whole in the proofs -----

  function Mul(a: real, b: real): real { a * b }

  lemma MulAssoc(a: real, b: real, c: real)
    ensures Mul(Mul(a, b), c) == Mul(a, Mul(b, c))
  {
  }

  lemma MulComm(a: real, b: real)
    ensures Mul(a, b) == Mul(b, a)
  {
  }

  lemma MulOne(a: real)
    ensures Mul(a, 1.0) == a && Mul(1.0, a) == a && Mul(0.0, a) == 0.0
  {
  }

  lemma MulTwice(a: real, b: real)
    ensures Mul(a, 2.0 * b) == 2.0 * Mul(a, b) && Mul(2.0 * a, b) == 2.0 * Mul(a, b)
  {
  }

  lemma MulScale(a: real, b: real)
    ensures Mul(a, b / SCALE) == Mul(a, b) / SCALE
  {
  }

  lemma MulMinus(a: real, b: real, c: real)
    ensures Mul(a - b, c) == Mul(a, c) - Mul(b, c)
  {
  }

  lemma MulPositive(a: real, b: real)
    requires a > 0.0 && b > 0.0
    ensures Mul(a, b) > 0.0
  {
  }

  lemma MulLt(a: real, b: real, c: real)
    requires a < b && c > 0.0
    ensures Mul(a, c) < Mul(b, c)
  {
    MulPositive(b - a, c);
    MulMinus(b, a, c);
  }

  lemma MulSign(a: real, c: real)
    requires c > 0.0
    ensures Abs(Mul(a, c)) == Mul(Abs(a), c) && (Mul(a, c) > 0.0 <==> a > 0.0) && (Mul(a, c) < 0.0 <==> a < 0.0)
  {
    hide Mul;
    MulOne(c);
    MulMinus(0.0, a, c);
    if a > 0.0 { MulPositive(a, c); }
    if a < 0.0 { MulPositive(-a, c); }
  }

  // ----- powers of two -----

  function Pow2(e: int): (p: real)
    ensures p > 0.0
    decreases if e < 0 then -e else e
  {
    if e == 0 then 1.0 else if e > 0 then 2.0 * Pow2(e - 1) else Pow2(e + 1) / 2.0
  }

  lemma Pow2Step(e: int)
    ensures Pow2(e + 1) == 2.0 * Pow2(e)
  {
  }

  lemma {:induction false} Pow2Add(a: int, b: int)
    ensures Pow2(a + b) == Mul(Pow2(a), Pow2(b))
    decreases if b < 0 then -b else b
  {
    if b == 0 {
      MulOne(Pow2(a));
    } else if b > 0 {
      hide Pow2, Mul;
      Pow2Add(a, b - 1);
      Pow2Step(a + b - 1);
      Pow2Step(b - 1);
      MulTwice(Pow2(a), Pow2(b - 1));
    } else {
      hide Pow2, Mul;
      Pow2Add(a, b + 1);
      Pow2Step(a + b);
      Pow2Step(b);
      MulTwice(Pow2(a), Pow2(b));
    }
  }

  lemma Pow2Inverse(e: int)
    ensures Mul(Pow2(-e), Pow2(e)) == 1.0 && Mul(Pow2(e), Pow2(-e)) == 1.0
  {
    Pow2Add(-e, e);
    MulComm(Pow2(-e), Pow2(e));
  }

  lemma {:induction false} Pow2Monotone(a: int, b: int)
    requires a <= b
    ensures Pow2(a) <= Pow2(b)
    decreases b - a
  {
    if a < b {
      Pow2Monotone(a, b - 1);
      Pow2Step(b - 1);
    }
  }

  // ----- the exponent -----

  lemma Halve(a: real)
    requires a >= 2.0
    ensures 1.0 <= a / 2.0 && 0 <= (a / 2.0).Floor < a.Floor
  {
  }

  lemma Grow(a: real)
    requires 0.0 < a < 0.5
    ensures 0.0 < 2.0 * a < 1.0 && 1.0 / (2.0 * a) == (1.0 / a) / 2.0 && 1.0 / a >= 2.0
  {
    var i := 1.0 / a;
    assert i * a == 1.0;
    assert (i / 2.0) * (2.0 * a) == 1.0;
  }

  /** floor(log2 a) + 1: a lies between half a power of two and the power. */
  function Exponent(a: real): (e: int)
    requires a > 0.0
    decreases a < 1.0, if a < 1.0 then (1.0 / a).Floor else a.Floor
  {
    if a >= 2.0 then Halve(a); Exponent(a / 2.0) + 1
    else if a >= 1.0 then 1
    else if a >= 0.5 then 0
    else Grow(a); Halve(1.0 / a); Exponent(2.0 * a) - 1
  }

  lemma {:induction false} ExponentIs(a: real)
    requires a > 0.0
    ensures Pow2(Exponent(a) - 1) <= a < Pow2(Exponent(a))
    decreases a < 1.0, if a < 1.0 then (1.0 / a).Floor else a.Floor
  {
    if a >= 2.0 {
      Halve(a);
      ExponentIs(a / 2.0);
      Pow2Step(Exponent(a / 2.0) - 1);
      Pow2Step(Exponent(a / 2.0));
    } else if a >= 1.0 {
      assert Pow2(0) == 1.0 && Pow2(1) == 2.0;
    } else if a >= 0.5 {
      assert Pow2(-1) == 0.5 && Pow2(0) == 1.0;
    } else {
      Grow(a);
      Halve(1.0 / a);
      ExponentIs(2.0 * a);
      Pow2Step(Exponent(2.0 * a) - 2);
      Pow2Step(Exponent(2.0 * a) - 1);
    }
  }

  /** Only one exponent brackets a number. */
  lemma ExponentUnique(a: real, e: int)
    requires a > 0.0 && Pow2(e - 1) <= a < Pow2(e)
    ensures Exponent(a) == e
  {
    ExponentIs(a);
    if Exponent(a) < e { Pow2Monotone(Exponent(a), e - 1); }
    if e < Exponent(a) { Pow2Monotone(e, Exponent(a) - 1); }
  }

  lemma Pow2Ten(e: int)
    ensures Pow2(e + 10) == 1024.0 * Pow2(e)
  {
    hide Pow2;
    Pow2Step(e); Pow2Step(e + 1); Pow2Step(e + 2); Pow2Step(e + 3); Pow2Step(e + 4);
    Pow2Step(e + 5); Pow2Step(e + 6); Pow2Step(e + 7); Pow2Step(e + 8); Pow2Step(e + 9);
  }

  lemma Pow2Thirty(e: int)
    ensures Pow2(e + 30) == SCALE * Pow2(e)
  {
    hide Pow2;
    Pow2Ten(e);
    Pow2Ten(e + 10);
    Pow2Ten(e + 20);
  }

  lemma Pow2Zero()
    ensures Pow2(0) == 1.0 && Pow2(-1) == 0.5 && Pow2(-2) == 0.25
  {
  }

  lemma {:induction false} Pow2Whole(n: nat)
    ensures Pow2(n) == Pow2(n).Floor as real
  {
    if n > 0 {
      Pow2Whole(n - 1);
      Pow2Step(n - 1);
      Doubled(Pow2(n - 1).Floor);
    }
  }

  lemma Doubled(i: int)
    ensures (2.0 * (i as real)).Floor == 2 * i
  {
    assert 2.0 * (i as real) == (2 * i) as real;
  }

  lemma WholeProduct(i: int, j: int)
    ensures Mul(i as real, j as real) == Mul(i as real, j as real).Floor as real
  {
    assert Mul(i as real, j as real) == (i * j) as real;
  }

  // ----- the encoding -----

  /** The exponent of a up to the accuracy of the logarithm: it may be one too large just below a
      power of two, and one too small at a power of two or just above. */
  predicate Near(a: real, e: int) {
    Pow2(e - 1) - Pow2(e - 31) < a < Pow2(e) + Pow2(e - 30)
  }

  ghost predicate Accurate(log: Log) { forall a :: a > 0.0 ==> Near(a, log(a)) }

  /** math.Pow(2, n). */
  function Power(n: int): Double {
    if n > 1023 then Inf(false) else if n < -1074 then Finite(0.0) else Finite(Pow2(n))
  }

  function Mantissa(r: real, p: real): int { (Mul(r, p) * SCALE).Floor }

  /** An overflowing power makes the mantissa overflow. */
  function EncodeDouble(log: Log, d: Double): Option<(int, int)> {
    match d
    case NaN => None
    case Inf(_) => None
    case Finite(r) =>
      if r == 0.0 then Some((0, 0))
      else
        var e := log(Abs(r));
        if e < INT_MIN || e > INT_MAX || !Power(-e).Finite? then None
        else
          var m := Mantissa(r, Power(-e).r);
          if m < INT_MIN || m > INT_MAX then None else Some((m, e))
  }

  /** To the nearest whole number, ties to even. */
  function Nearest(y: real): int {
    var f := y.Floor;
    if y - f as real < 0.5 || (y - f as real == 0.5 && f % 2 == 0) then f else f + 1
  }

  /** Below the normal doubles only multiples of the smallest one are left. */
  function Rounded(x: real): real {
    if Abs(x) >= Pow2(-1022) then x else Mul(Nearest(Mul(x, Pow2(1074))) as real, Pow2(-1074))
  }

  function DecodeDouble(m: int, e: int): Double {
    match Power(e)
    case Finite(p) =>
      if Abs(Mul(p, m as real)) >= Pow2(1024) then Inf(m < 0) else Finite(Rounded(Mul(p, m as real) / SCALE))
    case _ => if m == 0 then NaN else Inf(m < 0)
  }

  /** What a double becomes on the wire and back. */
  function Quantise(log: Log, d: Double): Double {
    match EncodeDouble(log, d)
    case None => d
    case Some((m, e)) => DecodeDouble(m, e)
  }

  predicate InRange(r: real) { Abs(r) < Pow2(1024) }

  // ----- what encoding makes of a number -----

  lemma NearBounds(a: real, e: int)
    requires Near(a, e)
    ensures Pow2(e - 2) < a < Pow2(e + 1)
  {
    hide Pow2;
    Pow2Step(e);
    Pow2Step(e - 2);
    Pow2Monotone(e - 31, e - 2);
    Pow2Monotone(e - 30, e);
  }

  lemma Pow2Order(a: int, b: int)
    ensures Pow2(a) < Pow2(b) <==> a < b
  {
    hide Pow2;
    if a < b { Pow2Monotone(a + 1, b); Pow2Step(a); } else { Pow2Monotone(b, a); }
  }

  /** The number scaled to 30 bits before the point. */
  function Scale(r: real, e: int): real { Mul(r, Pow2(30 - e)) }

  lemma MantissaIs(r: real, e: int)
    ensures Mantissa(r, Pow2(-e)) == Scale(r, e).Floor
  {
    hide Pow2, Mul;
    Pow2Thirty(-e);
    MulComm(r, SCALE * Pow2(-e));
    MulComm(r, Pow2(-e));
    assert Pow2(30 - e) == Mul(SCALE, Pow2(-e)) by { MulIs(SCALE, Pow2(-e)); }
    MulAssoc(SCALE, Pow2(-e), r);
    MulIs(SCALE, Mul(Pow2(-e), r));
    MulComm(r, Pow2(30 - e));
  }

  lemma MulIs(a: real, b: real)
    ensures Mul(a, b) == a * b
  {
  }

  lemma ScaleBounds(r: real, e: int)
    requires r != 0.0 && Near(Abs(r), e)
    ensures 536870911.5 < Abs(Scale(r, e)) < 1073741825.0
    ensures (Scale(r, e) > 0.0 <==> r > 0.0) && (Scale(r, e) < 0.0 <==> r < 0.0)
  {
    hide Pow2, Mul;
    var a, q := Abs(r), Pow2(30 - e);
    var low, high := Pow2(e - 1) - Pow2(e - 31), Pow2(e) + Pow2(e - 30);
    MulSign(r, q);
    MulLt(low, a, q);
    MulLt(a, high, q);
    MulMinus(Pow2(e - 1), Pow2(e - 31), q);
    MulMinus(Pow2(e), -Pow2(e - 30), q);
    MulMinus(0.0, Pow2(e - 30), q);
    MulOne(q);
    Pow2Add(e - 1, 30 - e);
    Pow2Add(e - 31, 30 - e);
    Pow2Add(e, 30 - e);
    Pow2Add(e - 30, 30 - e);
    Pow2Zero();
    Pow2Thirty(0);
    Pow2Step(29);
  }

  lemma LogBounds(log: Log, r: real)
    requires Accurate(log) && r != 0.0 && InRange(r)
    ensures Near(Abs(r), log(Abs(r))) && log(Abs(r)) <= 1025
  {
    hide Near, Pow2;
    var e := log(Abs(r));
    NearBounds(Abs(r), e);
    Pow2Order(e - 2, 1024);
  }

  /** The mantissa of a non-zero number has about 30 bits and always fits; the encoding is refused
      exactly for an exponent below -1023. */
  lemma MantissaRange(log: Log, r: real)
    requires Accurate(log) && r != 0.0 && InRange(r)
    ensures var e := log(Abs(r)); var m := Scale(r, e).Floor;
      && (r > 0.0 ==> 0x1FFF_FFFF <= m <= 0x4000_0000)
      && (r < 0.0 ==> -0x4000_0001 <= m <= -0x2000_0000)
      && EncodeDouble(log, Finite(r)) == if e < -1023 then None else Some((m, e))
  {
    hide Pow2, Mul, Near, Accurate, Mantissa, Scale;
    var e := log(Abs(r));
    LogBounds(log, r);
    ScaleBounds(r, e);
    MantissaIs(r, e);
  }

  // ----- what decoding makes of a pair -----

  /** What a pair stands for. */
  function Wire(m: int, e: int): real { Mul(m as real, Pow2(e - 30)) }

  lemma WireIs(m: int, e: int)
    ensures Mul(Pow2(e), m as real) / SCALE == Wire(m, e)
  {
    hide Pow2, Mul;
    var t := m as real;
    Pow2Thirty(e - 30);
    MulComm(Pow2(e), t);
    assert Pow2(e - 30) == Pow2(e) / SCALE;
    MulScale(t, Pow2(e));
  }

  lemma NearestWhole(i: int)
    ensures Nearest(i as real) == i
  {
  }

  /** A multiple of the smallest double is not rounded. */
  lemma RoundedWhole(m: int, e: int)
    requires e >= -1044
    ensures Rounded(Wire(m, e)) == Wire(m, e)
  {
    hide Pow2, Mul, Nearest;
    var t := m as real;
    MulAssoc(t, Pow2(e - 30), Pow2(1074));
    Pow2Add(e - 30, 1074);
    Pow2Whole(e + 1044);
    var n := Pow2(e + 1044).Floor;
    WholeProduct(m, n);
    NearestWhole(Mul(t, n as real).Floor);
    MulAssoc(t, Pow2(e + 1044), Pow2(-1074));
    Pow2Add(e + 1044, -1074);
  }

  predicate Overlarge(m: int, e: int) { Mul(Abs(m as real), Pow2(e)) >= Pow2(1024) }

  /** Pairs of moderate exponent stand for what they decode to, or decode to an infinity. */
  lemma DecodeIs(m: int, e: int)
    requires e >= -1044 && m != 0
    ensures DecodeDouble(m, e) == if Overlarge(m, e) then Inf(m < 0) else Finite(Wire(m, e))
  {
    hide Pow2, Mul, Rounded;
    var a := Abs(m as real);
    MulComm(Pow2(e), m as real);
    MulSign(m as real, Pow2(e));
    if e > 1023 {
      Pow2Monotone(1024, e);
      MulAtLeast(a, Pow2(e));
    } else {
      WireIs(m, e);
      RoundedWhole(m, e);
    }
  }

  lemma MulAtLeast(a: real, b: real)
    requires a >= 1.0 && b > 0.0
    ensures Mul(a, b) >= b
  {
    MulOne(b);
    if a > 1.0 { MulLt(1.0, a, b); }
  }

  // ----- quantisation -----

  /** The decoded value overflows: from 2^994 on, and for negative numbers just before. */
  predicate Overflows(log: Log, r: real)
    requires r != 0.0
  {
    if r > 0.0 then r >= Pow2(994) else -r > Pow2(994) - Pow2(log(-r) - 30)
  }

  lemma MulOrder(a: real, b: real, c: real)
    requires c > 0.0
    ensures (Mul(a, c) < Mul(b, c) <==> a < b) && (Mul(a, c) == Mul(b, c) <==> a == b)
  {
    if a < b { MulLt(a, b, c); }
    if b < a { MulLt(b, a, c); }
  }

  /** Scaling is undone by the power it used. */
  lemma ScaleBack(r: real, e: int)
    ensures Mul(Scale(r, e), Pow2(e - 30)) == r
  {
    hide Pow2, Mul;
    MulAssoc(r, Pow2(30 - e), Pow2(e - 30));
    Pow2Inverse(e - 30);
    MulOne(r);
  }

  /** The limit of overflow, in units of the last place of the mantissa. */
  lemma LimitIs(m: int, e: int)
    ensures Overlarge(m, e) <==> Abs(m as real) >= Pow2(1024 - e)
  {
    hide Pow2, Mul;
    Pow2Add(1024 - e, e);
    MulOrder(Abs(m as real), Pow2(1024 - e), Pow2(e));
  }

  /** The same limit for the scaled number. */
  lemma LimitScaled(r: real, e: int)
    ensures Scale(r, e) >= Pow2(1024 - e) <==> r >= Pow2(994)
    ensures -Scale(r, e) > Pow2(1024 - e) - 1.0 <==> -r > Pow2(994) - Pow2(e - 30)
  {
    hide Pow2, Mul, Scale;
    var x, q, n := Scale(r, e), Pow2(e - 30), Pow2(1024 - e);
    Pow2Add(1024 - e, e - 30);
    ScaleBack(r, e);
    MulOrder(x, n, q);
    MulOrder(n - 1.0, -x, q);
    MulMinus(n, 1.0, q);
    MulMinus(0.0, x, q);
    MulOne(q);
  }

  lemma OverflowIs(log: Log, r: real)
    requires Accurate(log) && r != 0.0 && InRange(r)
    ensures var e := log(Abs(r)); Overlarge(Scale(r, e).Floor, e) <==> Overflows(log, r)
  {
    hide Pow2, Mul, Near, Accurate, Scale, Overlarge;
    var e := log(Abs(r));
    var m := Scale(r, e).Floor;
    LogBounds(log, r);
    ScaleBounds(r, e);
    LimitIs(m, e);
    LimitScaled(r, e);
    if e == 1025 {
      FarAbove(log, r, m);
    } else {
      Pow2Whole(1024 - e);
      AtLeastWhole(Scale(r, e), Pow2(1024 - e).Floor);
    }
  }

  lemma AtLeastWhole(x: real, n: int)
    ensures x.Floor >= n <==> x >= n as real
    ensures -x.Floor >= n <==> -x > n as real - 1.0
  {
  }

  lemma FarAbove(log: Log, r: real, m: int)
    requires r != 0.0 && log(Abs(r)) == 1025 && Near(Abs(r), 1025) && m != 0
    ensures Overflows(log, r) && Abs(m as real) >= Pow2(1024 - 1025)
  {
    hide Near, Pow2;
    NearBounds(Abs(r), 1025);
    Pow2Order(994, 1023);
    Pow2Zero();
  }

  lemma FloorScaled(x: real)
    requires Abs(x) > 536870911.5
    ensures 0.0 <= x - x.Floor as real < Abs(x) / 536870912.0
  {
  }

  /** A decoded number never exceeds the original, and misses it by less than one part in 2^29,
      or it is too large and comes back as an infinity. */
  lemma QuantisationError(log: Log, r: real)
    requires Accurate(log) && r != 0.0 && InRange(r) && EncodeDouble(log, Finite(r)).Some?
    ensures var d := Quantise(log, Finite(r));
      if Overflows(log, r) then d == Inf(r < 0.0) else d.Finite? && 0.0 <= r - d.r < Abs(r) / 536870912.0
  {
    hide Pow2, Mul, Near, Accurate, Scale, Overflows, Overlarge, Abs, EncodeDouble, DecodeDouble;
    var e := log(Abs(r));
    var x, q := Scale(r, e), Pow2(e - 30);
    var m := x.Floor;
    MantissaRange(log, r);
    OverflowIs(log, r);
    DecodeIs(m, e);
    LogBounds(log, r);
    ScaleBounds(r, e);
    FloorScaled(x);
    ScaleBack(r, e);
    MulMinus(x, m as real, q);
    MulSign(x, q);
    MulSign(x - m as real, q);
    MulLt(x - m as real, Abs(x) / 536870912.0, q);
    MulPart(Abs(x), q);
  }

  lemma MulPart(a: real, q: real)
    ensures Mul(a / 536870912.0, q) == Mul(a, q) / 536870912.0
  {
  }

  /** A caller can tell for any logarithm: up to 2^994 - 2^964 nothing overflows, from 2^994 on
      everything does. */
  lemma SafeRange(log: Log, r: real)
    requires Accurate(log) && r != 0.0 && InRange(r)
    ensures Abs(r) <= Pow2(994) - Pow2(964) ==> !Overflows(log, r)
    ensures Abs(r) >= Pow2(994) ==> Overflows(log, r)
  {
    hide Pow2, Near, Accurate;
    var e := log(Abs(r));
    LogBounds(log, r);
    assert Near(Abs(r), e) ==> Pow2(e - 1) - Pow2(e - 31) < Abs(r) by { NearLow(Abs(r), e); }
    if e >= 995 {
      NearScaled(e);
      Pow2Monotone(994, e - 1);
      Below(e);
    } else {
      Pow2Monotone(e - 30, 964);
    }
  }

  lemma NearLow(a: real, e: int)
    ensures Near(a, e) ==> Pow2(e - 1) - Pow2(e - 31) < a
  {
    hide Pow2;
  }

  lemma NearScaled(e: int)
    ensures Pow2(e - 1) == SCALE * Pow2(e - 31) && Pow2(994) == SCALE * Pow2(964)
  {
    hide Pow2;
    Pow2Thirty(e - 31);
    Pow2Thirty(964);
  }

  lemma Below(e: int)
    requires e >= 995
    ensures Pow2(994) - Pow2(964) <= Pow2(e - 1) - Pow2(e - 31)
  {
    hide Pow2;
    NearScaled(e);
    Pow2Monotone(964, e - 31);
  }

  // ----- every pair on the wire -----

  lemma NearShift(a: real, e: int, k: int)
    ensures Near(Mul(a, Pow2(k)), e + k) <==> Near(a, e)
  {
    hide Pow2, Mul;
    var q := Pow2(k);
    var low, high := Pow2(e - 1) - Pow2(e - 31), Pow2(e) + Pow2(e - 30);
    MulOrder(low, a, q);
    MulOrder(a, high, q);
    MulMinus(Pow2(e - 1), Pow2(e - 31), q);
    MulMinus(Pow2(e), -Pow2(e - 30), q);
    MulMinus(0.0, Pow2(e - 30), q);
    MulOne(q);
    Pow2Add(e - 1, k);
    Pow2Add(e - 31, k);
    Pow2Add(e, k);
    Pow2Add(e - 30, k);
  }

  /** The powers that matter for 32-bit mantissas. */
  lemma Powers()
    ensures Pow2(-1) == 0.5 && Pow2(0) == 1.0 && Pow2(1) == 2.0
    ensures Pow2(29) == 536870912.0 && Pow2(30) == 1073741824.0 && Pow2(31) == 2147483648.0
  {
    hide Pow2;
    Pow2Zero();
    Pow2Step(0);
    Pow2Thirty(0);
    Pow2Step(29);
    Pow2Step(30);
  }

  predicate Int32(m: int) { INT_MIN <= m <= INT_MAX }

  /** Which exponents a mantissa may be given. */
  lemma NearInt(m: int, t: int)
    requires m != 0 && Int32(m) && Near(Abs(m as real), t)
    ensures t <= 32
    ensures t <= 29 ==> Abs(m as real) <= 536870912.0
    ensures t == 30 ==> 536870912.0 <= Abs(m as real) <= 1073741824.0
    ensures t == 31 ==> Abs(m as real) >= 1073741824.0
    ensures t == 32 ==> Abs(m as real) >= 2147483647.0
  {
    hide Pow2;
    var a := Abs(m as real);
    Powers();
    NearBounds(a, t);
    Pow2Order(t - 2, 31);
    if t <= 29 {
      Pow2Monotone(t, 29);
      Pow2Monotone(t - 30, -1);
      AtMostWhole(m, 536870912);
    }
    AtMostWhole(m, 1073741824);
  }

  lemma AtMostWhole(m: int, n: int)
    ensures Abs(m as real) < n as real + 1.0 ==> Abs(m as real) <= n as real
    ensures Abs(m as real) > n as real - 1.0 ==> Abs(m as real) >= n as real
  {
    var k := if m < 0 then -m else m;
    assert Abs(m as real) == k as real && n as real + 1.0 == (n + 1) as real && n as real - 1.0 == (n - 1) as real;
    assert (k as real < (n + 1) as real <==> k < n + 1) && (k as real > (n - 1) as real <==> k > n - 1);
  }

  /** Nothing is cut off a mantissa below 2^30, nor off an even one, whatever the logarithm. */
  lemma ShiftedIsWhole(m: int, t: int)
    requires m != 0 && Int32(m) && Near(Abs(m as real), t)
    ensures Mul(m as real, Pow2(30 - t)) == Mul(m as real, Pow2(30 - t)).Floor as real
        <==> (-0x4000_0000 < m < 0x4000_0000) || m % 2 == 0
  {
    hide Pow2, Mul, Near;
    NearInt(m, t);
    Powers();
    if t <= 30 {
      Pow2Whole(30 - t);
      WholeProduct(m, Pow2(30 - t).Floor);
    } else if t == 31 {
      Half(m);
    } else {
      Quarter(m);
      Pow2Step(-2);
      assert m == INT_MIN || m == -INT_MAX || m == INT_MAX;
    }
  }

  lemma Half(m: int)
    ensures Mul(m as real, 0.5) == Mul(m as real, 0.5).Floor as real <==> m % 2 == 0
  {
    var x := Mul(m as real, 0.5);
    if m % 2 == 0 {
      assert x == (m / 2) as real;
    } else {
      assert x == (m / 2) as real + 0.5;
    }
  }

  lemma Quarter(m: int)
    ensures m % 4 == 0 ==> Mul(m as real, 0.25) == Mul(m as real, 0.25).Floor as real
    ensures m % 2 == 1 ==> Mul(m as real, 0.25) != Mul(m as real, 0.25).Floor as real
  {
    var x := Mul(m as real, 0.25);
    if m % 4 == 0 {
      assert x == (m / 4) as real;
    } else if m % 2 == 1 {
      assert x == (m / 4) as real + (m % 4) as real / 4.0;
      assert x.Floor == m / 4;
    }
  }

  /** A pair in other units: the exponent the logarithm gives the number, and its mantissa. */
  lemma WireScales(m: int, e: int, f: int)
    requires m != 0
    ensures Wire(m, e) != 0.0 && Abs(Wire(m, e)) == Mul(Abs(m as real), Pow2(e - 30))
    ensures Near(Abs(Wire(m, e)), f) <==> Near(Abs(m as real), f - e + 30)
    ensures Scale(Wire(m, e), f) == Mul(m as real, Pow2(e - f))
    ensures Wire(m, e) == Mul(Mul(m as real, Pow2(e - f)), Pow2(f - 30))
  {
    hide Pow2, Mul, Near;
    var t := m as real;
    MulSign(t, Pow2(e - 30));
    NearShift(Abs(t), f - e + 30, e - 30);
    MulAssoc(t, Pow2(e - 30), Pow2(30 - f));
    Pow2Add(e - 30, 30 - f);
    MulAssoc(t, Pow2(e - f), Pow2(f - 30));
    Pow2Add(e - f, f - 30);
  }

  /** Too small to be more than zero after decoding. */
  predicate Vanishes(m: int, e: int) {
    e < -1074 || Abs(m as real) <= Pow2(-1045 - e)
  }

  lemma NearestZero(y: real)
    ensures Nearest(y) == 0 <==> Abs(y) <= 0.5
    ensures Abs(Nearest(y) as real) <= Abs(y) + 1.0
  {
  }

  /** Pairs of very small exponent decode to zero or to a number too small to be encoded. */
  lemma TinyPair(m: int, e: int)
    requires m != 0 && Int32(m) && e < -1044
    ensures !Overlarge(m, e) && Abs(Wire(m, e)) < Pow2(-1040)
    ensures DecodeDouble(m, e).Finite? && Abs(DecodeDouble(m, e).r) < Pow2(-1040)
    ensures DecodeDouble(m, e).r == 0.0 <==> Vanishes(m, e)
  {
    hide Pow2, Mul, Rounded, Vanishes, Abs;
    TinyBounds(m, e);
    if e < -1074 {
      ZeroPower(m, e);
    } else {
      WireIs(m, e);
      MulComm(Pow2(e), m as real);
      TinyRounded(m, e);
    }
  }

  lemma TinyBounds(m: int, e: int)
    requires m != 0 && Int32(m) && e < -1044
    ensures !Overlarge(m, e) && Abs(Wire(m, e)) < Pow2(-1042)
    ensures Abs(Mul(Pow2(e), m as real)) < Pow2(1024) && Pow2(-1042) < Pow2(-1040)
  {
    hide Pow2, Mul;
    var a := Abs(m as real);
    Powers();
    LimitIs(m, e);
    Pow2Order(31, 1024 - e);
    MulComm(Pow2(e), m as real);
    MulSign(m as real, Pow2(e));
    MulSign(m as real, Pow2(e - 30));
    Pow2Order(-1042, -1040);
    Pow2Step(31);
    MulLt(a, Pow2(32), Pow2(e - 30));
    Pow2Add(32, e - 30);
    Pow2Monotone(e + 2, -1042);
  }

  lemma ZeroPower(m: int, e: int)
    requires e < -1074
    ensures DecodeDouble(m, e) == Finite(0.0) && Vanishes(m, e) && Abs(0.0) < Pow2(-1040)
  {
    hide Pow2;
    MulOne(m as real);
    RoundedZero();
  }

  lemma RoundedZero()
    ensures Rounded(0.0) == 0.0 && Rounded(0.0 / SCALE) == 0.0 && Pow2(-1040) > 0.0 && Pow2(1024) > 0.0
  {
    hide Pow2;
    MulOne(Pow2(1074));
    MulOne(Pow2(-1074));
  }

  lemma TinyRounded(m: int, e: int)
    requires m != 0 && Int32(m) && -1074 <= e < -1044
    ensures Rounded(Wire(m, e)) == 0.0 <==> Vanishes(m, e)
    ensures Abs(Rounded(Wire(m, e))) < Pow2(-1040)
  {
    hide Pow2, Mul, Nearest;
    var t := m as real;
    var y := Mul(t, Pow2(e + 1044));
    TinyBounds(m, e);
    Pow2Order(-1042, -1022);
    MulAssoc(t, Pow2(e - 30), Pow2(1074));
    Pow2Add(e - 30, 1074);
    NearestZero(y);
    MulSign(t, Pow2(e + 1044));
    MulOrder(Pow2(-1045 - e), Abs(t), Pow2(e + 1044));
    Pow2Add(-1045 - e, e + 1044);
    Powers();
    var n := Nearest(y) as real;
    MulSign(n, Pow2(-1074));
    TinyNearest(m, e, n);
  }

  lemma TinyNearest(m: int, e: int, n: real)
    requires Int32(m) && e < -1044 && Abs(n) <= Abs(Mul(m as real, Pow2(e + 1044))) + 1.0
    ensures Mul(Abs(n), Pow2(-1074)) < Pow2(-1040)
  {
    hide Pow2, Mul;
    var t := m as real;
    Powers();
    Pow2Step(31);
    Pow2Monotone(e + 1044, 0);
    MulSign(t, Pow2(e + 1044));
    if Pow2(e + 1044) < 1.0 && t != 0.0 { MulComm(Abs(t), Pow2(e + 1044)); MulLt(Pow2(e + 1044), 1.0, Abs(t)); }
    MulOne(Abs(t));
    MulOne(Pow2(e + 1044));
    MulLt(Abs(n), Pow2(32), Pow2(-1074));
    Pow2Add(32, -1074);
    Pow2Order(-1042, -1040);
  }

  lemma TooSmall(log: Log, r: real)
    requires Accurate(log) && r != 0.0 && Abs(r) < Pow2(-1023)
    ensures InRange(r) && (Abs(r) < Pow2(-1030) ==> log(Abs(r)) < -1023)
  {
    hide Pow2, Near;
    var e := log(Abs(r));
    NearBounds(Abs(r), e);
    Pow2Order(-1023, 1024);
    if Abs(r) < Pow2(-1030) { Pow2Order(e - 2, -1030); }
  }

  /** What a decoded pair encodes to. */
  lemma PairEncodes(log: Log, m: int, e: int)
    requires Accurate(log) && m != 0 && Int32(m)
    ensures var f := log(Abs(Wire(m, e)));
      EncodeDouble(log, DecodeDouble(m, e)) ==
      if Vanishes(m, e) then Some((0, 0))
      else if Overlarge(m, e) || f < -1023 then None
      else Some((Mul(m as real, Pow2(e - f)).Floor, f))
  {
    hide Pow2, Mul, Near, Accurate, Vanishes, Overlarge, Scale, EncodeDouble;
    var d := Wire(m, e);
    WireScales(m, e, log(Abs(d)));
    if e < -1044 {
      TinyPair(m, e);
      TinySmall(log, m, e);
    } else {
      NotVanishing(m, e);
      DecodeIs(m, e);
      if Overlarge(m, e) { InfRefused(log); } else {
        WireInRange(m, e);
        MantissaRange(log, d);
      }
    }
  }

  lemma InfRefused(log: Log)
    ensures EncodeDouble(log, Inf(true)) == None && EncodeDouble(log, Inf(false)) == None
    ensures EncodeDouble(log, NaN) == None && EncodeDouble(log, Finite(0.0)) == Some((0, 0))
  {
  }

  lemma NotVanishing(m: int, e: int)
    requires m != 0 && e >= -1044
    ensures !Vanishes(m, e)
  {
    hide Pow2;
    Powers();
    Pow2Monotone(-1045 - e, -1);
  }

  lemma WireInRange(m: int, e: int)
    requires m != 0 && !Overlarge(m, e)
    ensures InRange(Wire(m, e))
  {
    hide Pow2, Mul;
    MulSign(m as real, Pow2(e - 30));
    Pow2Thirty(e - 30);
    MulScale(Abs(m as real), Pow2(e));
    assert Pow2(e - 30) == Pow2(e) / SCALE;
  }

  /** Both the exact and the rounded value of such a pair are too small to be encoded. */
  lemma TinySmall(log: Log, m: int, e: int)
    requires Accurate(log) && m != 0 && Int32(m) && e < -1044
    ensures DecodeDouble(m, e).Finite? && var r := DecodeDouble(m, e).r;
      log(Abs(Wire(m, e))) < -1023 && EncodeDouble(log, Finite(r)) == if r == 0.0 then Some((0, 0)) else None
  {
    hide Pow2, Near, Accurate, Overlarge, Vanishes, Wire, DecodeDouble, EncodeDouble, Abs;
    TinyPair(m, e);
    Pow2Order(-1040, -1030);
    Pow2Order(-1040, -1023);
    WireScales(m, e, 0);
    TooSmall(log, Wire(m, e));
    var r := DecodeDouble(m, e).r;
    if r == 0.0 {
      InfRefused(log);
    } else {
      TooSmall(log, r);
      MantissaRange(log, r);
    }
  }

  /** Reading a re-encoded mantissa gives the number back exactly when nothing was cut off. */
  lemma ReadsBack(m: int, e: int, f: int)
    requires m != 0 && !Overlarge(m, e) && f >= -1023 && Mul(m as real, Pow2(e - f)).Floor != 0
    ensures var y := Mul(m as real, Pow2(e - f));
      DecodeDouble(y.Floor, f) == Finite(Wire(m, e)) <==> y == y.Floor as real
  {
    hide Pow2, Mul, DecodeDouble;
    var y := Mul(m as real, Pow2(e - f));
    DecodeIs(y.Floor, f);
    WireScales(m, e, f);
    MulOrder(y.Floor as real, y, Pow2(f - 30));
    if y == y.Floor as real {
      MulSign(m as real, Pow2(e - f));
      MulAssoc(Abs(m as real), Pow2(e - f), Pow2(f));
      Pow2Add(e - f, f);
    }
  }

  /** The pairs whose value survives being encoded and decoded again. */
  predicate FixedPair(log: Log, m: int, e: int) {
    if m == 0 then e < 1024
    else
      || Vanishes(m, e)
      || (!Overlarge(m, e) && log(Abs(Wire(m, e))) >= -1023 && (-0x4000_0000 < m < 0x4000_0000 || m % 2 == 0))
  }

  /** For every pair of integers on the wire: what it decodes to can be encoded and comes back as
      the same value if and only if it is zero and not an infinity times zero, or too small to be
      more than zero, or neither too large nor too small and its mantissa has at most 30 bits or
      is even. */
  lemma PairFixed(log: Log, m: int, e: int)
    requires Accurate(log) && Int32(m)
    ensures var d := DecodeDouble(m, e);
      EncodeDouble(log, d).Some? && Quantise(log, d) == d <==> FixedPair(log, m, e)
  {
    hide Pow2, Mul, Near, Accurate, Vanishes, Overlarge, EncodeDouble, DecodeDouble;
    ZeroPair(0);
    if m == 0 {
      ZeroPair(e);
      InfRefused(log);
    } else {
      PairEncodes(log, m, e);
      if Vanishes(m, e) {
        VanishingPair(m, e);
      } else if !Overlarge(m, e) && log(Abs(Wire(m, e))) >= -1023 {
        PairAgain(log, m, e);
      }
    }
  }

  lemma ZeroPair(e: int)
    ensures DecodeDouble(0, e) == if e > 1023 then NaN else Finite(0.0)
  {
    hide Pow2;
    RoundedZero();
    if -1074 <= e <= 1023 { MulComm(Pow2(e), 0.0); MulOne(Pow2(e)); }
    MulOne(0.0);
  }

  lemma VanishingPair(m: int, e: int)
    requires m != 0 && Int32(m) && Vanishes(m, e)
    ensures DecodeDouble(m, e) == Finite(0.0)
  {
    hide Vanishes, DecodeDouble, Overlarge;
    if e >= -1044 { NotVanishing(m, e); } else { TinyPair(m, e); }
  }

  lemma PairAgain(log: Log, m: int, e: int)
    requires Accurate(log) && m != 0 && Int32(m) && !Vanishes(m, e) && !Overlarge(m, e)
    requires log(Abs(Wire(m, e))) >= -1023
    ensures var f := log(Abs(Wire(m, e))); var y := Mul(m as real, Pow2(e - f));
      && DecodeDouble(m, e) == Finite(Wire(m, e))
      && (DecodeDouble(y.Floor, f) == Finite(Wire(m, e)) <==> (-0x4000_0000 < m < 0x4000_0000) || m % 2 == 0)
  {
    hide Pow2, Mul, Near, Accurate, Vanishes, Overlarge, DecodeDouble, Scale;
    var d := Wire(m, e);
    var f := log(Abs(d));
    if e < -1044 { TinySmall(log, m, e); }
    DecodeIs(m, e);
    WireScales(m, e, f);
    WireInRange(m, e);
    LogBounds(log, d);
    ScaleBounds(d, f);
    ReadsBack(m, e, f);
    ShiftedIsWhole(m, f - e + 30);
  }

  /** Encoding a decoded value decodes to the same value, unless the number was negative and the
      logarithm put it below the power of two it lies above: then the mantissa, rounded down, is
      odd and one bit too long. */
  lemma QuantiseTwice(log: Log, r: real)
    requires Accurate(log) && r != 0.0 && InRange(r) && EncodeDouble(log, Finite(r)).Some?
    ensures var d := Quantise(log, Finite(r));
      Quantise(log, d) == d <==> Overflows(log, r) || !(r < 0.0 && -r > Pow2(log(-r)))
  {
    hide Pow2, Mul, Near, Accurate, Scale, Overflows, Overlarge, EncodeDouble, DecodeDouble, Vanishes;
    var e := log(Abs(r));
    var m := Scale(r, e).Floor;
    MantissaRange(log, r);
    OverflowIs(log, r);
    DecodeIs(m, e);
    LogBounds(log, r);
    LongMantissa(r, e);
    if Overflows(log, r) {
      InfRefused(log);
    } else {
      NotVanishing(m, e);
      PairEncodes(log, m, e);
      if log(Abs(Wire(m, e))) >= -1023 { PairAgain(log, m, e); } else { LongIsLarge(log, m, e); }
    }
  }

  lemma LongMantissa(r: real, e: int)
    requires r != 0.0 && Near(Abs(r), e)
    ensures var m := Scale(r, e).Floor;
      (-0x4000_0000 < m < 0x4000_0000 || m % 2 == 0) <==> !(r < 0.0 && -r > Pow2(e))
  {
    hide Pow2, Mul, Near, Scale;
    var x := Scale(r, e);
    ScaleBounds(r, e);
    ScaleBack(r, e);
    Pow2Add(30, e - 30);
    Powers();
    MulOrder(Pow2(30), -x, Pow2(e - 30));
    MulMinus(0.0, x, Pow2(e - 30));
    MulOne(Pow2(e - 30));
    if r < 0.0 {
      assert x.Floor == -0x4000_0001 <==> -x > 1073741824.0;
    }
  }

  /** A mantissa beyond 30 bits is not too small to be encoded. */
  lemma LongIsLarge(log: Log, m: int, e: int)
    requires Accurate(log) && m != 0 && e >= -1023 && log(Abs(Wire(m, e))) < -1023
    ensures -0x4000_0000 < m < 0x4000_0000
  {
    hide Pow2, Mul;
    var f := log(Abs(Wire(m, e)));
    var a := Abs(m as real);
    WireScales(m, e, f);
    NearTop(a, f - e + 30);
    Powers();
    Pow2Monotone(f - e + 30, 29);
    Pow2Monotone(f - e, -1);
  }

  lemma NearTop(a: real, t: int)
    requires Near(a, t)
    ensures a < Pow2(t) + Pow2(t - 30)
  {
    hide Pow2;
  }

  /** The pairs that encoding produces from the value they stand for. At a power of two the
      logarithm decides between two mantissas. */
  predicate NormalPair(log: Log, m: int, e: int) {
    || (m == 0 && e == 0)
    || (-1023 <= e <= 994 && (0x2000_0000 < m < 0x4000_0000 || -0x4000_0000 < m < -0x2000_0000))
    || (-1023 <= e <= 994 && m in {0x2000_0000, -0x2000_0000} && log(Pow2(e - 1)) == e)
    || (-1023 <= e <= 993 && m in {0x4000_0000, -0x4000_0000} && log(Pow2(e)) == e)
  }

  /** For every pair of integers on the wire: it is its own encoding if and only if it is normal. */
  lemma PairNormal(log: Log, m: int, e: int)
    requires Accurate(log) && Int32(m)
    ensures EncodeDouble(log, DecodeDouble(m, e)) == Some((m, e)) <==> NormalPair(log, m, e)
  {
    hide Pow2, Mul, Near, Accurate, Vanishes, Overlarge, EncodeDouble, DecodeDouble;
    if m == 0 {
      ZeroPair(e);
      InfRefused(log);
    } else {
      PairEncodes(log, m, e);
      NormalExponent(log, m, e);
      Vanished(m, e);
      MulOne(m as real);
      Powers();
    }
  }

  lemma Vanished(m: int, e: int)
    requires m != 0
    ensures Vanishes(m, e) ==> e < -1044
  {
    hide Vanishes, Pow2;
    if e >= -1044 { NotVanishing(m, e); }
  }

  lemma LogNear(log: Log, a: real)
    requires Accurate(log) && a > 0.0
    ensures Near(a, log(a))
  {
    hide Near;
  }

  /** A pair that the logarithm gives its own exponent, within the range of exponents. */
  lemma NormalExponent(log: Log, m: int, e: int)
    requires Accurate(log) && m != 0 && Int32(m)
    ensures NormalPair(log, m, e) <==> e >= -1023 && !Overlarge(m, e) && log(Abs(Wire(m, e))) == e
  {
    hide Pow2, Mul, Near, Accurate, Overlarge;
    var f := log(Abs(Wire(m, e)));
    WireScales(m, e, f);
    LogNear(log, Abs(Wire(m, e)));
    NearInt(m, f - e + 30);
    Powers();
    SmallMantissa(m, f - e + 30);
    LargePair(m, e);
    PowerPair(m, e);
  }

  lemma SmallMantissa(m: int, t: int)
    requires m != 0 && Int32(m) && Near(Abs(m as real), t)
    ensures 0x2000_0000 < m < 0x4000_0000 || -0x4000_0000 < m < -0x2000_0000 ==> t == 30
  {
    hide Pow2, Near;
    NearInt(m, t);
  }

  /** When a mantissa of 30 bits is too large for its exponent. */
  lemma LargePair(m: int, e: int)
    ensures 536870912.0 <= Abs(m as real) < 1073741824.0 ==> (Overlarge(m, e) <==> e >= 995)
    ensures Abs(m as real) == 1073741824.0 ==> (Overlarge(m, e) <==> e >= 994)
  {
    hide Pow2, Mul;
    LimitIs(m, e);
    Powers();
    Pow2Order(29, 1024 - e);
    Pow2Order(30, 1024 - e);
    if 1024 - e <= 29 { Pow2Monotone(1024 - e, 29); } else { Pow2Monotone(30, 1024 - e); }
  }

  lemma PowerPair(m: int, e: int)
    ensures m in {0x2000_0000, -0x2000_0000} ==> Abs(Wire(m, e)) == Pow2(e - 1)
    ensures m in {0x4000_0000, -0x4000_0000} ==> Abs(Wire(m, e)) == Pow2(e)
  {
    hide Pow2, Mul;
    MulSign(m as real, Pow2(e - 30));
    Powers();
    Pow2Add(29, e - 30);
    Pow2Add(30, e - 30);
  }

  // ----- which numbers survive, for a caller -----

  /** Up to the accuracy of the logarithm around 2^-1024, the numbers that can be encoded, and of
      these the ones that come back finite. */
  lemma Float64Encodes(log: Log, r: real)
    requires Accurate(log) && r != 0.0 && InRange(r)
    ensures Abs(r) >= Pow2(-1023) ==> EncodeDouble(log, Finite(r)).Some?
    ensures Abs(r) <= Pow2(-1024) - Pow2(-1054) ==> EncodeDouble(log, Finite(r)).None?
    ensures Pow2(-1023) <= Abs(r) <= Pow2(994) - Pow2(964) ==> Quantise(log, Finite(r)).Finite?
    ensures Abs(r) >= Pow2(994) ==> Quantise(log, Finite(r)) == Inf(r < 0.0)
  {
    hide Pow2, Near, Accurate, EncodeDouble, Quantise, Overflows, Scale;
    var e := log(Abs(r));
    MantissaRange(log, r);
    LogBounds(log, r);
    SmallBounds(Abs(r), e);
    SafeRange(log, r);
    Pow2Order(-1023, 994);
    if EncodeDouble(log, Finite(r)).Some? { QuantisationError(log, r); }
  }

  lemma SmallBounds(a: real, e: int)
    requires Near(a, e)
    ensures a >= Pow2(-1023) ==> e >= -1023
    ensures a <= Pow2(-1024) - Pow2(-1054) ==> e < -1023
  {
    hide Pow2;
    if e < -1023 {
      Pow2Monotone(e, -1024);
      Pow2Monotone(e - 30, -1054);
      Pow2Monotone(-1054, -1024);
      Pow2Step(-1024);
    } else {
      Pow2Thirty(e - 31);
      Pow2Thirty(-1054);
      Pow2Monotone(-1054, e - 31);
    }
  }

  // ----- two logarithms as accurate as a library's -----

  function Exact(a: real): int { if a > 0.0 then Exponent(a) else 0 }

  /** One too small at every power of two and just above it. */
  function Low(a: real): int {
    if a <= 0.0 then 0
    else
      var e := Exponent(a);
      if a < Pow2(e - 1) + Pow2(e - 31) then e - 1 else e
  }

  lemma BothAccurate()
    ensures Accurate(Exact) && Accurate(Low)
  {
    hide Pow2, Exponent;
    forall a | a > 0.0 ensures Near(a, Exact(a)) && Near(a, Low(a)) {
      var e := Exponent(a);
      ExponentIs(a);
      Pow2Step(e - 2);
      Pow2Step(e - 1);
    }
  }

  /** Which of the two pairs of a power of two is normal depends on the logarithm. */
  lemma EitherMantissa(e: int)
    requires -1022 <= e <= 994
    ensures NormalPair(Exact, 0x2000_0000, e) && !NormalPair(Low, 0x2000_0000, e)
    ensures NormalPair(Low, 0x4000_0000, e - 1) && !NormalPair(Exact, 0x4000_0000, e - 1)
  {
    hide Pow2, Exponent;
    Pow2Step(e - 1);
    ExponentUnique(Pow2(e - 1), e);
  }

  /** With the one that is too small, a negative number just above a power of two is quantised
      anew when it comes back. */
  lemma NegativeDrifts()
    ensures var r := -1.0 - Pow2(-31); var d := Quantise(Low, Finite(r));
      EncodeDouble(Low, Finite(r)).Some? && d.Finite? && Quantise(Low, d) != d
  {
    hide Pow2, Exponent, Accurate, EncodeDouble, Quantise;
    var r := -1.0 - Pow2(-31);
    Powers();
    Pow2Step(-31);
    Pow2Monotone(-31, -1);
    Pow2Order(-1023, 0);
    Pow2Order(1, 1024);
    Pow2Thirty(964);
    Pow2Monotone(2, 964);
    Pow2Step(1);
    ExponentUnique(-r, 1);
    BothAccurate();
    Float64Encodes(Low, r);
    SafeRange(Low, r);
    QuantiseTwice(Low, r);
  }

  // ----- inputs that do not come back -----

  /** Large numbers go out and come back as an infinity, which is refused when it goes out again. */
  lemma LargeIsInfinite(log: Log)
    requires Accurate(log)
    ensures EncodeDouble(log, Finite(Pow2(994))).Some? && Quantise(log, Finite(Pow2(994))) == Inf(false)
    ensures EncodeDouble(log, Inf(false)) == None
    ensures DecodeDouble(0x2000_0000, 995) == Inf(false) && DecodeDouble(0, 1024) == NaN
  {
    hide Pow2, Accurate, EncodeDouble, DecodeDouble, Quantise, Overlarge;
    Pow2Order(-1023, 994);
    Pow2Order(994, 1024);
    Float64Encodes(log, Pow2(994));
    InfRefused(log);
    DecodeIs(0x2000_0000, 995);
    LargePair(0x2000_0000, 995);
    ZeroPair(1024);
  }

  /** An odd mantissa of 31 bits comes back as another number. */
  lemma OddMantissa(log: Log)
    requires Accurate(log)
    ensures var d := DecodeDouble(0x4000_0001, 0);
      d == Finite(1073741825.0 / SCALE) && EncodeDouble(log, d).Some? && Quantise(log, d) != d
  {
    hide Pow2, Accurate, EncodeDouble, DecodeDouble, Quantise, Vanishes, Overlarge, Near;
    var m := 0x4000_0001;
    var f := log(Abs(Wire(m, 0)));
    Powers();
    OddWire();
    NotVanishing(m, 0);
    DecodeIs(m, 0);
    LogNear(log, Abs(Wire(m, 0)));
    SmallBounds(Abs(Wire(m, 0)), f);
    Pow2Order(-1023, 0);
    PairEncodes(log, m, 0);
    PairFixed(log, m, 0);
  }

  lemma OddWire()
    ensures Wire(0x4000_0001, 0) == 1073741825.0 / SCALE > 1.0 && !Overlarge(0x4000_0001, 0)
  {
    hide Pow2;
    Pow2Thirty(-30);
    Powers();
    assert Pow2(-30) == 1.0 / SCALE;
    LimitIs(0x4000_0001, 0);
    Pow2Order(31, 1024);
  }

  /** A number the encoding refuses although it is no infinity. */
  lemma SmallIsRefused(log: Log)
    requires Accurate(log)
    ensures EncodeDouble(log, Finite(Pow2(-1025))) == None
  {
    hide Pow2, Accurate, EncodeDouble;
    Pow2Step(-1025);
    Pow2Monotone(-1054, -1025);
    Pow2Order(-1025, 1024);
    Float64Encodes(log, Pow2(-1025));
  }
}
