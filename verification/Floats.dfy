/** Which numbers the bit patterns of float and double denote, and so what the change test compares. */
module Floats {
  import opened Wire
  import opened Dataref

  // ---------- powers of two ----------

  lemma {:induction false} Pow2Positive(k: int)
    ensures Pow2(k) > 0.0
    decreases if k < 0 then -k else k
  {
    if k > 0 { Pow2Positive(k - 1); }
    if k < 0 { Pow2Positive(k + 1); }
  }

  lemma Pow2Doubles(k: int)
    ensures Pow2(k + 1) == 2.0 * Pow2(k)
  {
  }

  lemma {:induction false} IntPow2IsPow2(k: nat)
    ensures IntPow2(k) as real == Pow2(k) && IntPow2(k) > 0
  {
    if k > 0 { IntPow2IsPow2(k - 1); }
  }

  lemma {:induction false} Pow2Inverse(k: int)
    requires k >= 0
    ensures Pow2(k) * Pow2(-k) == 1.0
  {
    if k > 0 {
      Pow2Inverse(k - 1);
      var a, b := Pow2(k - 1), Pow2(1 - k);
      assert Pow2(k) == 2.0 * a && Pow2(-k) == b / 2.0;
      assert (2.0 * a) * (b / 2.0) == a * b;
    }
  }

  // ---------- magnitudes ----------

  /** A pattern without its sign bit. */
  function Magnitude(code: nat, bits: nat, bias: int): real {
    Ieee(false, code / IntPow2(bits), code % IntPow2(bits), bits, bias)
  }

  lemma Scaled(m: int, n: int, p: real)
    requires m < n && p > 0.0
    ensures m as real * p < n as real * p
  {
  }

  lemma Doubled(n: int, m: int, p: real)
    requires m < 2 * n && p > 0.0
    ensures m as real * p < n as real * (2.0 * p)
  {
    Scaled(m, 2 * n, p);
    assert (2 * n) as real * p == n as real * (2.0 * p);
  }

  /** Within one exponent the fraction counts on. */
  lemma NextFraction(e: nat, f: nat, bits: nat, bias: int)
    ensures Ieee(false, e, f, bits, bias) < Ieee(false, e, f + 1, bits, bias)
  {
    var k := if e == 0 then 1 - bias - bits else e - bias - bits;
    Pow2Positive(k);
    Scaled(f, f + 1, Pow2(k));
    Scaled(f + IntPow2(bits), f + 1 + IntPow2(bits), Pow2(k));
  }

  /** At its end the next exponent takes over. */
  lemma NextExponent(e: nat, f: nat, bits: nat, bias: int)
    requires f < IntPow2(bits)
    ensures Ieee(false, e, f, bits, bias) < Ieee(false, e + 1, 0, bits, bias)
  {
    var n, k := IntPow2(bits), e - bias - bits;
    if e == 0 {
      Pow2Positive(k + 1);
      Scaled(f, n, Pow2(k + 1));
    } else {
      Pow2Positive(k);
      Pow2Doubles(k);
      Doubled(n, f + n, Pow2(k));
    }
  }

  lemma NextPattern(code: nat, n: nat)
    requires n > 0
    ensures if code % n + 1 < n then (code + 1) / n == code / n && (code + 1) % n == code % n + 1
            else (code + 1) / n == code / n + 1 && (code + 1) % n == 0
  {
    var q, r := code / n, code % n;
    assert code == q * n + r;
    if r + 1 < n {
      Divided(code + 1, n, q, r + 1);
    } else {
      assert code + 1 == q * n + n == (q + 1) * n;
      Divided(code + 1, n, q + 1, 0);
    }
  }

  lemma Divided(a: nat, n: nat, q: nat, r: nat)
    requires a == q * n + r && r < n
    ensures a / n == q && a % n == r
  {
    var d: int := a / n - q;
    assert a == (a / n) * n + a % n;
    assert d * n == r - a % n;
    AtLeastOnce(d, n);
  }

  lemma {:induction false} AtLeastOnce(d: int, n: int)
    requires n > 0
    ensures d > 0 ==> d * n >= n
    ensures d < 0 ==> d * n <= -n
    decreases if d < 0 then -d else d
  {
    if d > 1 {
      AtLeastOnce(d - 1, n);
      assert d * n == (d - 1) * n + n;
    } else if d < -1 {
      AtLeastOnce(d + 1, n);
      assert d * n == (d + 1) * n - n;
    }
  }

  lemma MagnitudeSteps(a: nat, bits: nat, bias: int)
    ensures Magnitude(a, bits, bias) < Magnitude(a + 1, bits, bias)
  {
    var n := IntPow2(bits);
    NextPattern(a, n);
    if a % n + 1 < n { NextFraction(a / n, a % n, bits, bias); } else { NextExponent(a / n, a % n, bits, bias); }
  }

  lemma {:induction false} MagnitudeGrows(a: nat, b: nat, bits: nat, bias: int)
    requires a < b
    ensures Magnitude(a, bits, bias) < Magnitude(b, bits, bias)
    decreases b - a
  {
    MagnitudeSteps(a, bits, bias);
    if a + 1 < b { MagnitudeGrows(a + 1, b, bits, bias); }
  }

  // ---------- float and double ----------

  /** The sign bit of a floating point type. */
  function SignBit(ty: int): nat { if ty == XPTYPE_DBL then 0x8000_0000_0000_0000 else 0x8000_0000 }

  lemma {:induction false} IntPowers()
    ensures IntPow2(23) == 0x80_0000 && IntPow2(52) == 0x10_0000_0000_0000
  {
    var a := IntPow2(13);
    assert IntPow2(5) == 32 && IntPow2(10) == 32 * IntPow2(5);
    assert IntPow2(13) == 8192;
    assert IntPow2(18) == 32 * IntPow2(13);
    assert IntPow2(23) == 32 * IntPow2(18);
    assert IntPow2(28) == 32 * IntPow2(23);
    assert IntPow2(33) == 32 * IntPow2(28);
    assert IntPow2(38) == 32 * IntPow2(33);
    assert IntPow2(43) == 32 * IntPow2(38);
    assert IntPow2(48) == 32 * IntPow2(43);
    assert IntPow2(52) == 16 * IntPow2(48);
  }

  lemma UnsignedFloat(code: nat)
    requires code < 0x8000_0000
    ensures FloatValue(code) == Magnitude(code, 23, 127)
  {
    IntPowers();
    FloatParts(code);
    assert (code / 0x80_0000) % 0x100 == code / 0x80_0000;
  }

  lemma UnsignedDouble(code: nat)
    requires code < 0x8000_0000_0000_0000
    ensures DoubleValue(code) == Magnitude(code, 52, 1023)
  {
    IntPowers();
    DoubleParts(code);
    assert (code / 0x10_0000_0000_0000) % 0x800 == code / 0x10_0000_0000_0000;
  }

  /** Below the sign bit a pattern denotes its magnitude. */
  lemma UnsignedValue(ty: int, code: nat)
    requires Floating(ty) && code < SignBit(ty)
    ensures ValueOf(ty, code) == if ty == XPTYPE_DBL then Magnitude(code, 52, 1023) else Magnitude(code, 23, 127)
  {
    if ty == XPTYPE_DBL { UnsignedDouble(code); } else { UnsignedFloat(code); }
  }

  lemma FloatParts(code: nat)
    requires code < 0x8000_0000
    ensures (code / 0x8000_0000) % 2 == 0 && ((0x8000_0000 + code) / 0x8000_0000) % 2 == 1
    ensures ((0x8000_0000 + code) / 0x80_0000) % 0x100 == (code / 0x80_0000) % 0x100
    ensures (0x8000_0000 + code) % 0x80_0000 == code % 0x80_0000
  {
  }

  lemma DoubleParts(code: nat)
    requires code < 0x8000_0000_0000_0000
    ensures (code / 0x8000_0000_0000_0000) % 2 == 0 && ((0x8000_0000_0000_0000 + code) / 0x8000_0000_0000_0000) % 2 == 1
    ensures ((0x8000_0000_0000_0000 + code) / 0x10_0000_0000_0000) % 0x800 == (code / 0x10_0000_0000_0000) % 0x800
    ensures (0x8000_0000_0000_0000 + code) % 0x10_0000_0000_0000 == code % 0x10_0000_0000_0000
  {
  }

  lemma Negative(exponent: int, fraction: int, bits: nat, bias: int)
    ensures Ieee(true, exponent, fraction, bits, bias) == -Ieee(false, exponent, fraction, bits, bias)
  {
  }

  /** Setting the sign bit negates the number. */
  lemma SignNegates(ty: int, code: nat)
    requires Floating(ty) && code < SignBit(ty)
    ensures ValueOf(ty, SignBit(ty) + code) == -ValueOf(ty, code)
  {
    if ty == XPTYPE_DBL {
      DoubleParts(code);
      Negative((code / 0x10_0000_0000_0000) % 0x800, code % 0x10_0000_0000_0000, 52, 1023);
    } else {
      FloatParts(code);
      Negative((code / 0x80_0000) % 0x100, code % 0x80_0000, 23, 127);
    }
  }

  /** Below the sign bit larger patterns are larger numbers. */
  lemma ValuesGrow(ty: int, a: nat, b: nat)
    requires Floating(ty) && a < b < SignBit(ty)
    ensures ValueOf(ty, a) < ValueOf(ty, b)
  {
    UnsignedValue(ty, a);
    UnsignedValue(ty, b);
    if ty == XPTYPE_DBL { MagnitudeGrows(a, b, 52, 1023); } else { MagnitudeGrows(a, b, 23, 127); }
  }

  lemma ZeroIsZero(ty: int)
    requires Floating(ty)
    ensures ValueOf(ty, 0) == 0.0
  {
  }

  /** The two patterns of zero. */
  predicate IsZero(ty: int, code: nat) { code == 0 || code == SignBit(ty) }

  lemma PatternOf(ty: int, code: nat) returns (negative: bool, low: nat)
    requires Floating(ty) && code < 2 * SignBit(ty)
    ensures low < SignBit(ty) && code == (if negative then SignBit(ty) + low else low)
    ensures ValueOf(ty, code) == if negative then -ValueOf(ty, low) else ValueOf(ty, low)
    ensures ValueOf(ty, low) >= 0.0 && (ValueOf(ty, low) == 0.0 <==> low == 0)
  {
    negative := code >= SignBit(ty);
    low := if negative then code - SignBit(ty) else code;
    ZeroIsZero(ty);
    if low > 0 { ValuesGrow(ty, 0, low); }
    if negative { SignNegates(ty, low); }
  }

  /** Equal numbers have equal patterns, but for the two zeros. */
  lemma EqualValues(ty: int, a: nat, b: nat)
    requires Floating(ty) && a < 2 * SignBit(ty) && b < 2 * SignBit(ty)
    ensures ValueOf(ty, a) == ValueOf(ty, b) <==> a == b || (IsZero(ty, a) && IsZero(ty, b))
  {
    var m, x := PatternOf(ty, a);
    var n, y := PatternOf(ty, b);
    if x < y { ValuesGrow(ty, x, y); }
    if y < x { ValuesGrow(ty, y, x); }
  }

  /** The order of the numbers is that of the patterns, read with their sign. */
  lemma ValueOrder(ty: int, a: nat, b: nat)
    requires Floating(ty) && a < SignBit(ty) && b < SignBit(ty)
    ensures ValueOf(ty, a) < ValueOf(ty, b) <==> a < b
    ensures ValueOf(ty, SignBit(ty) + a) < ValueOf(ty, SignBit(ty) + b) <==> b < a
    ensures ValueOf(ty, SignBit(ty) + a) < ValueOf(ty, b) <==> !(a == 0 && b == 0)
  {
    SignNegates(ty, a);
    SignNegates(ty, b);
    if a < b { ValuesGrow(ty, a, b); }
    if b < a { ValuesGrow(ty, b, a); }
    ZeroIsZero(ty);
    if a > 0 { ValuesGrow(ty, 0, a); }
    if b > 0 { ValuesGrow(ty, 0, b); }
  }

  /** A fraction of zero at the bias is one. */
  lemma IeeeOne(bits: nat, bias: nat)
    requires bias > 0
    ensures Ieee(false, bias, 0, bits, bias) == 1.0
  {
    IntPow2IsPow2(bits);
    Pow2Inverse(bits);
  }

  lemma OneIsOne()
    ensures FloatValue(0x3F80_0000) == 1.0
  {
    IeeeOne(23, 127);
    var code := 0x3F80_0000;
    assert (code / 0x8000_0000) % 2 == 0 && (code / 0x80_0000) % 0x100 == 127 && code % 0x80_0000 == 0;
  }

  lemma DoubleOneIsOne()
    ensures DoubleValue(0x3FF0_0000_0000_0000) == 1.0
  {
    IeeeOne(52, 1023);
    var code := 0x3FF0_0000_0000_0000;
    assert (code / 0x8000_0000_0000_0000) % 2 == 0 && (code / 0x10_0000_0000_0000) % 0x800 == 1023;
    assert code % 0x10_0000_0000_0000 == 0;
  }

  lemma SmallPowers()
    ensures Pow2(7) == 128.0 && Pow2(-22) == 1.0 / 4194304.0
  {
    assert Pow2(-5) == 1.0 / 32.0;
    assert Pow2(-10) == Pow2(-5) / 32.0;
    assert Pow2(-15) == Pow2(-10) / 32.0;
    assert Pow2(-20) == Pow2(-15) / 32.0;
  }

  lemma MissingFloat()
    ensures FloatValue(0xCEEE6B28) == -2000000000.0
  {
    IntPowers();
    SmallPowers();
    assert Ieee(true, 157, 7236392, 23, 127) == -2000000000.0;
    var code := 0xCEEE6B28;
    assert (code / 0x8000_0000) % 2 == 1 && (code / 0x80_0000) % 0x100 == 157 && code % 0x80_0000 == 7236392;
  }

  lemma MissingDouble()
    ensures DoubleValue(0xC1DDCD6500000000) == -2000000000.0
  {
    IntPowers();
    SmallPowers();
    assert Ieee(true, 1053, 8388608000000000 - 0x10_0000_0000_0000, 52, 1023) == -2000000000.0;
    var code := 0xC1DDCD6500000000;
    assert (code / 0x8000_0000_0000_0000) % 2 == 1 && (code / 0x10_0000_0000_0000) % 0x800 == 1053;
    assert code % 0x10_0000_0000_0000 == 8388608000000000 - 0x10_0000_0000_0000;
  }

  /** The missing value is -2000000000 in every floating point type. */
  lemma MissingValue(ty: int)
    requires Floating(ty)
    ensures ValueOf(ty, MissCode(ty)) == -2000000000.0 && MissCode(ty) < 2 * SignBit(ty)
  {
    MissingFloat();
    MissingDouble();
  }

  /** Three numbers every reader of the format agrees on. */
  lemma Anchors(ty: int)
    requires Floating(ty)
    ensures ValueOf(ty, 0) == 0.0 && ValueOf(ty, MissCode(ty)) == -2000000000.0
    ensures ValueOf(ty, if ty == XPTYPE_DBL then 0x3FF0_0000_0000_0000 else 0x3F80_0000) == 1.0
  {
    ZeroIsZero(ty);
    MissingValue(ty);
    OneIsOne();
    DoubleOneIsOne();
  }

  // ---------- the change test without a precision ----------

  lemma RangeOf(ty: int)
    requires Floating(ty)
    ensures Pow256(Width(ty)) == 2 * SignBit(ty)
  {
    Pow256Values();
  }

  /** Another pattern, and not just the other zero. */
  predicate OtherNumber(ty: int, a: nat, b: nat) { a != b && !(IsZero(ty, a) && IsZero(ty, b)) }

  /** Without a precision some element has changed exactly if its pattern has, and not from one zero to the
      other. */
  lemma ChangedIffPatternsDiffer(ty: int, precision: int, old_: seq<nat>, new_: seq<nat>)
    requires Floating(ty) && !HasPrecision(precision)
    requires WfVals(ty, |old_|, old_) && WfVals(ty, |old_|, new_)
    ensures Changed(ty, precision, old_, new_) <==>
      exists j :: 0 <= j < |old_| && OtherNumber(ty, old_[j], new_[j])
  {
    RangeOf(ty);
    forall j | 0 <= j < |old_|
      ensures ElemChanged(ty, precision, old_[j], new_[j]) <==> OtherNumber(ty, old_[j], new_[j])
    {
      EqualValues(ty, old_[j], new_[j]);
    }
  }

  /** Elements that are whole numbers have changed exactly if they differ. */
  lemma ChangedIffDifferent(ty: int, precision: int, old_: seq<nat>, new_: seq<nat>)
    requires |old_| == |new_| && Integral(ty)
    ensures Changed(ty, precision, old_, new_) <==> old_ != new_
  {
    if !Changed(ty, precision, old_, new_) {
      assert forall j :: 0 <= j < |old_| ==> !ElemChanged(ty, precision, old_[j], new_[j]);
    }
  }

  /** What the change test finds, where no precision is involved. */
  predicate Found(ty: int, precision: int, old_: seq<nat>, new_: seq<nat>, changed: bool)
    requires |old_| == |new_|
  {
    if Integral(ty) then changed <==> old_ != new_
    else if Floating(ty) && !HasPrecision(precision) && WfVals(ty, |old_|, old_) && WfVals(ty, |old_|, new_) then
      changed <==> exists j :: 0 <= j < |old_| && OtherNumber(ty, old_[j], new_[j])
    else true
  }

  lemma ChangedIsFound(ty: int, precision: int, old_: seq<nat>, new_: seq<nat>)
    requires |old_| == |new_|
    ensures Found(ty, precision, old_, new_, Changed(ty, precision, old_, new_))
  {
    if Integral(ty) {
      ChangedIffDifferent(ty, precision, old_, new_);
    } else if Floating(ty) && !HasPrecision(precision) && WfVals(ty, |old_|, old_) && WfVals(ty, |old_|, new_) {
      ChangedIffPatternsDiffer(ty, precision, old_, new_);
    }
  }

  // ---------- the change test with a precision ----------

  lemma PowersOfTen(k: int)
    ensures Pow10(0) == 1.0 && Pow10(k + 1) == 10.0 * Pow10(k)
  {
  }

  function Abs(v: real): real { if v < 0.0 then -v else v }

  /** w is less than half a unit from v, or half a unit and farther from zero. */
  predicate Close(unit: real, v: real, w: real) {
    var d := Abs(v - w);
    2.0 * d < unit || (2.0 * d == unit && Abs(w) > Abs(v))
  }

  /** m is the multiple of the unit nearest to v, away from zero where two are as near. */
  predicate Nearest(unit: real, v: real, m: int) { Close(unit, v, m as real * unit) }

  lemma RoundIsNearest(x: real, m: int)
    ensures Close(1.0, x, m as real) <==> m == Round(x)
  {
  }

  lemma Back(v: real, unit: real, scale: real)
    requires unit * scale == 1.0
    ensures (v * scale) * unit == v
  {
    assert (v * scale) * unit == v * (unit * scale);
  }

  /** v is x units. */
  lemma SignOf(x: real, v: real, unit: real)
    requires unit > 0.0 && v == x * unit
    ensures Abs(v) == Abs(x) * unit
  {
    Compared(x, 0.0, unit, v, 0.0);
  }

  /** v is a units, and w is b units. */
  lemma Compared(a: real, b: real, unit: real, v: real, w: real)
    requires unit > 0.0 && v == a * unit && w == b * unit
    ensures (a < b <==> v < w) && (a == b <==> v == w)
  {
    var d := b - a;
    assert w - v == d * unit;
    if d > 0.0 { assert d * unit > 0.0; }
    if d < 0.0 { assert (-d) * unit > 0.0; }
  }

  lemma Halves(d: real, e: real, unit: real)
    requires e == d * unit && unit > 0.0
    ensures 2.0 * Abs(e) < unit <==> 2.0 * Abs(d) < 1.0
    ensures 2.0 * Abs(e) == unit <==> 2.0 * Abs(d) == 1.0
  {
    SignOf(d, e, unit);
    Compared(2.0 * Abs(d), 1.0, unit, 2.0 * Abs(e), unit);
  }

  lemma Farther(x: real, v: real, k: real, w: real, unit: real)
    requires v == x * unit && w == k * unit && unit > 0.0
    ensures Abs(w) > Abs(v) <==> Abs(k) > Abs(x)
  {
    SignOf(x, v, unit);
    SignOf(k, w, unit);
    Compared(Abs(x), Abs(k), unit, Abs(v), Abs(w));
  }

  /** v is x units, and w is k units: closeness is the same question in every unit. */
  lemma InUnits(x: real, v: real, k: real, w: real, unit: real)
    requires v == x * unit && w == k * unit && unit > 0.0
    ensures Close(unit, v, w) <==> Close(1.0, x, k)
  {
    var d, e := x - k, v - w;
    assert e == d * unit;
    Halves(d, e, unit);
    Farther(x, v, k, w, unit);
  }

  lemma NearestMeans(x: real, v: real, unit: real, m: int)
    requires v == x * unit && unit > 0.0
    ensures Nearest(unit, v, m) <==> m == Round(x)
  {
    var k := m as real;
    var w := k * unit;
    InUnits(x, v, k, w, unit);
    RoundIsNearest(x, m);
    NearestIsClose(unit, v, m, w);
  }

  lemma NearestIsClose(unit: real, v: real, m: int, w: real)
    requires w == m as real * unit
    ensures Nearest(unit, v, m) == Close(unit, v, w)
  {
  }

  /** How many units a number is, rounded. */
  function Units(scale: real, v: real): int { Round(v * scale) }

  lemma UnitsAreNearest(unit: real, scale: real, v: real, m: int)
    requires unit * scale == 1.0 && unit > 0.0
    ensures Nearest(unit, v, m) <==> m == Units(scale, v)
  {
    var x := v * scale;
    Back(v, unit, scale);
    NearestMeans(x, v, unit, m);
  }

  lemma FitsRounded(x: real)
    ensures -0x8000_0000 < Round(x) < 0x8000_0000 <==> Abs(x) < 2147483647.5
  {
  }

  lemma FitsUnits(unit: real, scale: real, v: real)
    requires unit * scale == 1.0 && unit > 0.0
    ensures FitsScaled(scale, v) <==> Abs(v) < 2147483647.5 * unit
  {
    var x := v * scale;
    Back(v, unit, scale);
    SignOf(x, v, unit);
    Compared(Abs(x), 2147483647.5, unit, Abs(v), 2147483647.5 * unit);
    FitsRounded(x);
  }

  /** A multiple of the unit that is the nearest to both. */
  ghost predicate SameMultiple(unit: real, a: real, b: real) {
    exists m: int :: Nearest(unit, a, m) && Nearest(unit, b, m)
  }

  lemma SameMultipleIff(unit: real, scale: real, a: real, b: real)
    requires unit * scale == 1.0 && unit > 0.0
    ensures SameMultiple(unit, a, b) <==> Units(scale, a) == Units(scale, b)
  {
    var m, n := Units(scale, a), Units(scale, b);
    UnitsAreNearest(unit, scale, a, m);
    UnitsAreNearest(unit, scale, b, m);
    if SameMultiple(unit, a, b) {
      var k: int :| Nearest(unit, a, k) && Nearest(unit, b, k);
      UnitsAreNearest(unit, scale, a, k);
      UnitsAreNearest(unit, scale, b, k);
    }
  }

  lemma QuantaDiffer(scale: real, a: real, b: real)
    ensures Quantum(scale, a) != Quantum(scale, b) <==>
      if FitsScaled(scale, a) && FitsScaled(scale, b) then Units(scale, a) != Units(scale, b)
      else FitsScaled(scale, a) != FitsScaled(scale, b)
  {
  }

  /** A number fits an int, other than the lowest, exactly below this bound. */
  lemma FitsBelow(precision: int, v: real)
    ensures FitsCast(precision, v) <==> Abs(v) < 2147483647.5 * Pow10(precision)
  {
    ScaleInverse(precision);
    FitsUnits(Pow10(precision), Pow10(-precision), v);
  }

  /** Two numbers are told apart exactly if their nearest multiples of the precision differ; those beyond the
      range of int count as one. */
  lemma DiffersIff(precision: int, a: real, b: real)
    ensures Differs(precision, a, b) <==>
      if FitsCast(precision, a) && FitsCast(precision, b) then !SameMultiple(Pow10(precision), a, b)
      else FitsCast(precision, a) != FitsCast(precision, b)
  {
    ScaleInverse(precision);
    QuantaDiffer(Pow10(-precision), a, b);
    SameMultipleIff(Pow10(precision), Pow10(-precision), a, b);
  }
}
