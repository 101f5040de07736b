/** What both programs do alike with a dataref: checking a subscription, missing values, and the
test that decides whether a value has moved far enough to be sent. */
module Dataref {
  import opened Wire

  datatype Option<+T> = None | Some(value: T)

  /** XPSTATUS_UNINITIALIZED, ALLOC, DEALLOC, LINK, UNLINK and VALID, in this order. */
  datatype Status = Uninitialized | Alloc | Dealloc | Linking | Unlinking | Valid

  predicate Scalar(ty: int) {
    ty == XPTYPE_INT || ty == XPTYPE_FLT || ty == XPTYPE_DBL || ty == XPTYPE_CMD_ONCE || ty == XPTYPE_CMD_HOLD
  }

  /** Types for which a precision means nothing. */
  predicate Integral(ty: int) {
    || ty == XPTYPE_INT || ty == XPTYPE_INT_ARR || ty == XPTYPE_BYTE_ARR
    || ty == XPTYPE_CMD_ONCE || ty == XPTYPE_CMD_HOLD
  }

  predicate Command(ty: int) { ty == XPTYPE_CMD_ONCE || ty == XPTYPE_CMD_HOLD }

  function NormalPrecision(ty: int, precision: int): int {
    if Integral(ty) || precision > 10 || precision < -10 then INT_MISS else precision
  }

  /** The checks at the top of link_dataref and of allocate_clientdata. */
  function Normalise(d: Desc): Option<Desc> {
    var nelements := if Scalar(d.ty) then 1 else d.nelements;
    var index := if Scalar(d.ty) then 0 else d.index;
    if nelements < 1 then None
    else if index < -1 then None
    else if index >= nelements then None
    else if d.name == [] then None
    else Some(Desc(d.name, d.ty, nelements, index, NormalPrecision(d.ty, d.precision)))
  }

  /** What the client has accepted passes the server's checks unchanged. */
  lemma NormaliseIsIdempotent(d: Desc)
    requires Normalise(d).Some?
    ensures Normalise(Normalise(d).value) == Normalise(d)
    ensures Normalise(d).value.name == d.name && Normalise(d).value.ty == d.ty
  {
  }

  /** Elements moved by one data frame: all of them for index -1, the selected one otherwise. */
  function Count(index: int, nelements: int): int {
    if index == -1 then nelements else 1
  }

  // ---------- frames of one cycle ----------

  /** Bytes of the frames written so far. */
  function SizeAll(fs: seq<Frame>): nat {
    if fs == [] then 0 else SizeAll(fs[..|fs| - 1]) + Size(fs[|fs| - 1])
  }

  function Opt(o: Option<Frame>): seq<Frame> {
    match o case None => [] case Some(f) => [f]
  }

  // ---------- missing values ----------

  /** The bit pattern of -2000000000 in the element type; bytes and unknown types have none. */
  function MissCode(ty: int): int {
    if ty == XPTYPE_INT || ty == XPTYPE_INT_ARR || Command(ty) then 0x1_0000_0000 + INT_MISS
    else if ty == XPTYPE_FLT || ty == XPTYPE_FLT_ARR then 0xCEEE6B28
    else if ty == XPTYPE_DBL then 0xC1DDCD6500000000
    else -1
  }

  lemma Pow256Values()
    ensures Pow256(1) == 0x100 && Pow256(4) == 0x1_0000_0000 && Pow256(8) == 0x1_0000_0000_0000_0000
  {
    assert Pow256(2) == 0x1_0000;
    assert Pow256(3) == 0x100_0000;
    assert Pow256(5) == 0x100_0000_0000;
    assert Pow256(6) == 0x1_0000_0000_0000;
    assert Pow256(7) == 0x100_0000_0000_0000;
  }

  /** What stands for an element nobody has set. */
  function Absent(ty: int): (code: nat)
    requires Known(ty)
    ensures code < Pow256(Width(ty))
  {
    Pow256Values();
    if ty == XPTYPE_BYTE_ARR then 0 else MissCode(ty)
  }

  /** Freshly allocated memory. */
  function Fill(ty: int, n: nat): (vals: seq<nat>)
    requires Known(ty)
    ensures WfVals(ty, n, vals)
  {
    seq(n, _ => Absent(ty))
  }

  /** Storing received elements: a missing one leaves the stored one alone. */
  function Merge(ty: int, mine: seq<nat>, got: seq<nat>): (r: seq<nat>)
    requires |mine| == |got|
    ensures |r| == |mine|
    ensures forall j :: 0 <= j < |r| ==> r[j] == if got[j] == MissCode(ty) then mine[j] else got[j]
  {
    seq(|mine|, j requires 0 <= j < |mine| => if got[j] == MissCode(ty) then mine[j] else got[j])
  }

  /** a holds the shadow's elements, apart from those whose shadow is the missing value. */
  predicate Agree(ty: int, a: seq<nat>, shadow: seq<nat>) {
    && |a| == |shadow|
    && forall j :: 0 <= j < |a| && shadow[j] != MissCode(ty) ==> a[j] == shadow[j]
  }

  // ---------- floating point values as reals ----------

  function Pow2(k: int): real
    decreases if k < 0 then -k else k
  {
    if k == 0 then 1.0 else if k > 0 then 2.0 * Pow2(k - 1) else Pow2(k + 1) / 2.0
  }

  /** Sign, exponent and fraction of an IEEE 754 pattern. */
  function Ieee(negative: bool, exponent: int, fraction: int, bits: nat, bias: int): real {
    var magnitude := if exponent == 0 then fraction as real * Pow2(1 - bias - bits)
                     else (fraction + IntPow2(bits)) as real * Pow2(exponent - bias - bits);
    if negative then -magnitude else magnitude
  }

  function IntPow2(k: nat): (r: nat)
    ensures r > 0
  {
    if k == 0 then 1 else 2 * IntPow2(k - 1)
  }

  function FloatValue(code: nat): real {
    Ieee((code / 0x8000_0000) % 2 == 1, (code / 0x80_0000) % 0x100, code % 0x80_0000, 23, 127)
  }

  function DoubleValue(code: nat): real {
    Ieee((code / 0x8000_0000_0000_0000) % 2 == 1, (code / 0x10_0000_0000_0000) % 0x800, code % 0x10_0000_0000_0000, 52, 1023)
  }

  predicate Floating(ty: int) { ty == XPTYPE_FLT || ty == XPTYPE_DBL || ty == XPTYPE_FLT_ARR }

  function ValueOf(ty: int, code: nat): real {
    if ty == XPTYPE_DBL then DoubleValue(code) else FloatValue(code)
  }

  // ---------- the change test ----------

  function Pow10(k: int): real
    decreases if k < 0 then -k else k
  {
    if k == 0 then 1.0 else if k > 0 then 10.0 * Pow10(k - 1) else Pow10(k + 1) / 10.0
  }

  /** roundf and round: halves go away from zero. */
  function Round(r: real): int {
    if r >= 0.0 then (r + 0.5).Floor else -((0.5 - r).Floor)
  }

  /** (int) of a floating point number: what does not fit becomes the lowest int. */
  function CastInt(z: int): int {
    if IsInt32(z) then z else -0x8000_0000
  }

  predicate HasPrecision(precision: int) { -10 <= precision <= 10 }

  function Quantum(scale: real, v: real): int {
    CastInt(Round(v * scale))
  }

  predicate Differs(precision: int, old_: real, new_: real) {
    var scale := Pow10(-precision);
    Quantum(scale, old_) != Quantum(scale, new_)
  }

  predicate ElemChanged(ty: int, precision: int, old_: nat, new_: nat) {
    if Floating(ty) then
      if HasPrecision(precision) then Differs(precision, ValueOf(ty, old_), ValueOf(ty, new_))
      else ValueOf(ty, old_) != ValueOf(ty, new_)
    else old_ != new_
  }

  predicate Changed(ty: int, precision: int, old_: seq<nat>, new_: seq<nat>)
    requires |old_| == |new_|
  {
    exists j :: 0 <= j < |old_| && ElemChanged(ty, precision, old_[j], new_[j])
  }

  // ---------- suppression ----------

  lemma {:induction false} Pow10Positive(k: int)
    ensures Pow10(k) > 0.0
    decreases if k < 0 then -k else k
  {
    if k > 0 { Pow10Positive(k - 1); }
    if k < 0 { Pow10Positive(k + 1); }
  }

  lemma {:induction false} Pow10Inverse(k: int)
    requires 0 <= k
    ensures Pow10(k) * Pow10(-k) == 1.0
  {
    if k > 0 {
      Pow10Inverse(k - 1);
      var a, b := Pow10(k - 1), Pow10(1 - k);
      assert Pow10(k) == 10.0 * a && Pow10(-k) == b / 10.0;
      assert (10.0 * a) * (b / 10.0) == a * b;
    }
  }

  lemma ScaleInverse(p: int)
    ensures Pow10(p) * Pow10(-p) == 1.0 && Pow10(p) > 0.0
  {
    Pow10Positive(p);
    if p >= 0 { Pow10Inverse(p); } else { Pow10Inverse(-p); }
  }

  /** The scaled value survives the cast to int, with the lowest int kept free. */
  predicate FitsScaled(scale: real, v: real) {
    -0x8000_0000 < Round(v * scale) < 0x8000_0000
  }

  predicate FitsCast(precision: int, v: real) {
    FitsScaled(Pow10(-precision), v)
  }

  predicate Near(a: real, b: real, d: real) { a - b < d && b - a < d }

  lemma RoundIsClose(a: real, b: real)
    requires Round(a) == Round(b)
    ensures Near(a, b, 1.0)
  {
  }

  lemma Unscale(x: real, s: real, d: real)
    requires d * s == 1.0 && d > 0.0 && x * s < 1.0
    ensures x < d
  {
    var y := x * s;
    assert y * d == x * (d * s);
    assert y * d < 1.0 * d;
  }

  lemma Times(x: real, s: real, p: real)
    requires p < 1.0 && x * s == p
    ensures x * s < 1.0
  {
  }

  lemma NearScaled(a: real, b: real, s: real, d: real)
    requires d * s == 1.0 && d > 0.0
    requires Near(a * s, b * s, 1.0)
    ensures Near(a, b, d)
  {
    var x, y, u, w := a - b, b - a, a * s, b * s;
    Times(x, s, u - w);
    Times(y, s, w - u);
    Unscale(x, s, d);
    Unscale(y, s, d);
  }

  lemma EqualQuantaAreNear(old_: real, v: real, s: real, d: real)
    requires d * s == 1.0 && d > 0.0
    requires FitsScaled(s, v) && Quantum(s, old_) == Quantum(s, v)
    ensures Near(old_, v, d)
  {
    RoundIsClose(old_ * s, v * s);
    NearScaled(old_, v, s, d);
  }

  lemma RoundShift(a: real)
    ensures a >= 0.0 ==> Round(a + 1.0) == Round(a) + 1
    ensures a <= 0.0 ==> Round(a - 1.0) == Round(a) - 1
  {
    assert (a + 1.0 + 0.5).Floor == (a + 0.5).Floor + 1;
    assert (0.5 - (a - 1.0)).Floor == (0.5 - a).Floor + 1;
  }

  lemma StepUnnoticed(x: real)
    requires !(-0x8000_0000 < Round(x) < 0x8000_0000)
    ensures x > 0.0 ==> CastInt(Round(x + 1.0)) == CastInt(Round(x))
    ensures x <= 0.0 ==> CastInt(Round(x - 1.0)) == CastInt(Round(x))
  {
    RoundShift(x);
  }

  lemma Scaled(v: real, d: real, s: real)
    requires d * s == 1.0
    ensures (v + d) * s == v * s + 1.0 && (v - d) * s == v * s - 1.0
  {
  }

  lemma SameQuantum(s: real, a: real, b: real, x: real, y: real)
    requires a * s == x && b * s == y && CastInt(Round(x)) == CastInt(Round(y))
    ensures Quantum(s, a) == Quantum(s, b)
  {
  }

  /** Beyond the range of int, a whole step more is not noticed. */
  lemma OverflowHidesAStep(v: real, s: real, d: real) returns (far: real)
    requires d * s == 1.0 && d > 0.0
    requires !FitsScaled(s, v)
    ensures Quantum(s, far) == Quantum(s, v) && !Near(far, v, d)
  {
    var x, up, down := v * s, v + d, v - d;
    StepUnnoticed(x);
    Scaled(v, d, s);
    if x > 0.0 {
      far := up;
      SameQuantum(s, far, v, x + 1.0, x);
    } else {
      far := down;
      SameQuantum(s, far, v, x - 1.0, x);
    }
  }

  /** A suppressed change is smaller than the precision, exactly as long as the scaled current value
      fits an int. */
  lemma SuppressionBoundExact(precision: int, v: real)
    ensures (forall old_: real :: !Differs(precision, old_, v) ==> Near(old_, v, Pow10(precision)))
            <==> FitsCast(precision, v)
  {
    var s, d := Pow10(-precision), Pow10(precision);
    ScaleInverse(precision);
    if FitsCast(precision, v) {
      forall old_: real | !Differs(precision, old_, v)
        ensures Near(old_, v, d)
      {
        EqualQuantaAreNear(old_, v, s, d);
      }
    } else {
      var far := OverflowHidesAStep(v, s, d);
      assert !Differs(precision, far, v);
    }
  }
}
