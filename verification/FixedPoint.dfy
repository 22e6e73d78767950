/**
 The 16-bit arithmetic of the chain: the scalar product of commonStructure.c, the lane
 arithmetic of Mult_complex32Vector_2, and the distance between them.
 */
module FixedPoint {
  import opened ComplexNumbers
  import DivMod

  predicate IsInt16(x: int) {
    -32768 <= x < 32768
  }

  /** Conversion to a 16-bit integer. */
  function Wrap16(x: int): (w: int)
    ensures IsInt16(w)
  {
    (x + 32768) % 65536 - 32768
  }

  /** Conversion to a 32-bit integer. */
  function Wrap32(x: int): (w: int) {
    (x + 0x8000_0000) % 0x1_0000_0000 - 0x8000_0000
  }

  lemma WrapSmall(x: int)
    requires IsInt16(x)
    ensures Wrap16(x) == x
  {
  }

  lemma Wrap32Small(x: int)
    requires -0x8000_0000 <= x < 0x8000_0000
    ensures Wrap32(x) == x
  {
  }

  /** Only the residue modulo 65536 matters. */
  lemma WrapCongruent(x: int, k: int)
    ensures Wrap16(x + k * 65536) == Wrap16(x)
  {
    DivMod.AddMultiple(x + 32768, k, 65536);
  }

  lemma WrapQuotient(x: int) returns (k: int)
    ensures Wrap16(x) == x + k * 65536
  {
    k := -((x + 32768) / 65536);
    DivMod.Split(x + 32768, 65536);
  }

  /** A conversion inside a sum can be postponed. */
  lemma WrapInside(x: int, y: int)
    ensures Wrap16(Wrap16(x) + y) == Wrap16(x + y)
    ensures Wrap16(Wrap16(x) - y) == Wrap16(x - y)
    ensures Wrap16(y - Wrap16(x)) == Wrap16(y - x)
  {
    var k := WrapQuotient(x);
    WrapCongruent(x + y, k);
    WrapCongruent(x - y, k);
    WrapCongruent(y - x, -k);
  }

  // ---------------------------------------------------------------------------
  // The two products
  // ---------------------------------------------------------------------------

  /** multForComplex32: a 32-bit sum of products, shifted down by 13 bits. */
  function Product(a: Complex32, b: Complex32): (c: Complex32) {
    Complex32(Wrap16(Wrap32(a.re * b.re - a.im * b.im) / 8192), Wrap16(Wrap32(a.re * b.im + a.im * b.re) / 8192))
  }

  /** One lane of mulhrs: shift down by 14, add one, shift down by one. */
  function MulHrs(x: int, y: int): (r: int) {
    Wrap16((x * y / 16384 + 1) / 2)
  }

  /** One lane of Mult_complex32Vector_2. */
  function LaneProduct(a: Complex32, b: Complex32): (c: Complex32) {
    Complex32(
      Wrap16(Wrap16(MulHrs(a.re, b.re) - MulHrs(a.im, b.im)) * 4),
      Wrap16(Wrap16(MulHrs(a.re, b.im) + MulHrs(a.im, b.re)) * 4))
  }

  function Sum(a: Complex32, b: Complex32): (c: Complex32) {
    Complex32(Wrap16(a.re + b.re), Wrap16(a.im + b.im))
  }

  // ---------------------------------------------------------------------------
  // The products without conversions
  // ---------------------------------------------------------------------------

  /** The nearest multiple of 2^15, halves up, divided by 2^15. */
  function Rounded(p: int): (r: int) {
    (p / 16384 + 1) / 2
  }

  /** The scalar product in unbounded integers. */
  function ExactProduct(a: Complex32, b: Complex32): (c: Complex32) {
    Complex32((a.re * b.re - a.im * b.im) / 8192, (a.re * b.im + a.im * b.re) / 8192)
  }

  /** The lane product in unbounded integers. */
  function ExactLane(a: Complex32, b: Complex32): (c: Complex32) {
    Complex32(
      (Rounded(a.re * b.re) - Rounded(a.im * b.im)) * 4,
      (Rounded(a.re * b.im) + Rounded(a.im * b.re)) * 4)
  }

  function Wrapped(c: Complex32): (w: Complex32) {
    Complex32(Wrap16(c.re), Wrap16(c.im))
  }

  /** The conversion between the shift by two and the addition before it changes nothing. */
  lemma WrapTimesFour(x: int)
    ensures Wrap16(Wrap16(x) * 4) == Wrap16(x * 4)
  {
    var k := WrapQuotient(x);
    WrapCongruent(x * 4, k * 4);
  }

  /** Nor does the 32-bit conversion in front of the shift by 13. */
  lemma WrapShifted(x: int)
    ensures Wrap16(Wrap32(x) / 8192) == Wrap16(x / 8192)
  {
    var k := -((x + 0x8000_0000) / 0x1_0000_0000);
    DivMod.Split(x + 0x8000_0000, 0x1_0000_0000);
    assert Wrap32(x) == x + (k * 524288) * 8192;
    DivMod.AddMultiple(x, k * 524288, 8192);
    WrapCongruent(x / 8192, k * 8);
  }

  lemma WrapDifference(r: int, t: int)
    ensures Wrap16(Wrap16(Wrap16(r) - Wrap16(t)) * 4) == Wrap16((r - t) * 4)
    ensures Wrap16(Wrap16(Wrap16(r) + Wrap16(t)) * 4) == Wrap16((r + t) * 4)
  {
    hide Wrap16;
    WrapInside(r, Wrap16(t));
    WrapInside(t, r);
    WrapTimesFour(r - t);
    WrapTimesFour(r + t);
  }

  /** For all samples both programs compute the unbounded products modulo 65536. */
  lemma ProductsAreWrapped(a: Complex32, b: Complex32)
    ensures Product(a, b) == Wrapped(ExactProduct(a, b))
    ensures LaneProduct(a, b) == Wrapped(ExactLane(a, b))
  {
    hide Wrap16, Wrap32;
    RealParts(a, b, a.re * b.re, a.im * b.im);
    ImaginaryParts(a, b, a.re * b.im, a.im * b.re);
  }

  lemma RealParts(a: Complex32, b: Complex32, p: int, q: int)
    requires p == a.re * b.re && q == a.im * b.im
    ensures Product(a, b).re == Wrap16((p - q) / 8192) && ExactProduct(a, b).re == (p - q) / 8192
    ensures LaneProduct(a, b).re == Wrap16((Rounded(p) - Rounded(q)) * 4)
    ensures ExactLane(a, b).re == (Rounded(p) - Rounded(q)) * 4
  {
    hide Wrap16, Wrap32;
    WrapShifted(p - q);
    WrapDifference(Rounded(p), Rounded(q));
  }

  lemma ImaginaryParts(a: Complex32, b: Complex32, p: int, q: int)
    requires p == a.re * b.im && q == a.im * b.re
    ensures Product(a, b).im == Wrap16((p + q) / 8192) && ExactProduct(a, b).im == (p + q) / 8192
    ensures LaneProduct(a, b).im == Wrap16((Rounded(p) + Rounded(q)) * 4)
    ensures ExactLane(a, b).im == (Rounded(p) + Rounded(q)) * 4
  {
    hide Wrap16, Wrap32;
    WrapShifted(p + q);
    WrapDifference(Rounded(p), Rounded(q));
  }

  /** 8192 stands for one: the product with it is the other factor, and the product with the
      imaginary unit is a quarter turn. */
  lemma ProductWithUnit(a: Complex32)
    requires IsInt16(a.re) && IsInt16(a.im)
    ensures Product(a, Complex32(8192, 0)) == a == Product(Complex32(8192, 0), a)
    ensures a.im > -32768 ==> Product(a, Complex32(0, 8192)) == Complex32(-a.im, a.re)
  {
    hide Product, Wrap16;
    ProductsAreWrapped(a, Complex32(8192, 0));
    ProductsAreWrapped(Complex32(8192, 0), a);
    ProductsAreWrapped(a, Complex32(0, 8192));
    DivMod.MultipleIsDivisible(a.re, 8192);
    DivMod.MultipleIsDivisible(a.im, 8192);
    WrapSmall(a.re);
    WrapSmall(a.im);
    if a.im > -32768 {
      DivMod.MultipleIsDivisible(-a.im, 8192);
      WrapSmall(-a.im);
    }
  }

  // ---------------------------------------------------------------------------
  // The error of one product
  // ---------------------------------------------------------------------------

  predicate Near(v: Complex32, s: Complex32, low: int, high: int) {
    low <= v.re - s.re <= high && low <= v.im - s.im <= high
  }

  lemma RoundedIsNearest(p: int)
    ensures p - 16384 < 32768 * Rounded(p) <= p + 16384
  {
  }

  /** The distance of the rounded and rescaled difference from the shifted difference. */
  lemma ErrorOfDifference(p: int, q: int)
    ensures -3 <= (Rounded(p) - Rounded(q)) * 4 - (p - q) / 8192 <= 4
    ensures -3 <= (Rounded(p) + Rounded(q)) * 4 - (p + q) / 8192 <= 4
  {
    hide Rounded;
    RoundedIsNearest(p);
    RoundedIsNearest(q);
    DivMod.Split(p - q, 8192);
    DivMod.Split(p + q, 8192);
  }

  /** For all samples the unbounded products are -3 to 4 apart in each component. */
  lemma ExactError(a: Complex32, b: Complex32)
    ensures Near(ExactLane(a, b), ExactProduct(a, b), -3, 4)
  {
    hide Rounded;
    ErrorOfDifference(a.re * b.re, a.im * b.im);
    ErrorOfDifference(a.re * b.im, a.im * b.re);
  }

  /** How often a value has left the 16-bit range, upwards or downwards. */
  function Laps(x: int): (n: int) {
    (x + 32768) / 65536
  }

  lemma LapsOf(x: int)
    ensures Wrap16(x) == x - Laps(x) * 65536
  {
    DivMod.Split(x + 32768, 65536);
  }

  lemma NearIffSameLaps(v: int, s: int)
    requires -3 <= v - s <= 4
    ensures -3 <= Wrap16(v) - Wrap16(s) <= 4 <==> Laps(v) == Laps(s)
  {
    LapsOf(v);
    LapsOf(s);
  }

  predicate SameLaps(v: Complex32, s: Complex32) {
    Laps(v.re) == Laps(s.re) && Laps(v.im) == Laps(s.im)
  }

  /** For all samples: a component of the lane product is -3 to 4 away from that of the scalar
      product if and only if the two have left the 16-bit range equally often. */
  lemma LaneErrorIff(a: Complex32, b: Complex32)
    ensures -3 <= LaneProduct(a, b).re - Product(a, b).re <= 4
      <==> Laps(ExactLane(a, b).re) == Laps(ExactProduct(a, b).re)
    ensures -3 <= LaneProduct(a, b).im - Product(a, b).im <= 4
      <==> Laps(ExactLane(a, b).im) == Laps(ExactProduct(a, b).im)
    ensures Near(LaneProduct(a, b), Product(a, b), -3, 4) <==> SameLaps(ExactLane(a, b), ExactProduct(a, b))
  {
    hide LaneProduct, Product, ExactLane, ExactProduct, Wrap16, Laps;
    ProductsAreWrapped(a, b);
    ExactError(a, b);
    var v, s := ExactLane(a, b), ExactProduct(a, b);
    NearIffSameLaps(v.re, s.re);
    NearIffSameLaps(v.im, s.im);
  }

  /** Where the two part: the scalar result still fits 16 bits and the lane result has
      wrapped. */
  lemma LaneWraps()
    ensures var a, b := Complex32(16440, 16385), Complex32(8168, -8187);
      && Product(a, b).re == 32766 && LaneProduct(a, b).re == -32768
      && !SameLaps(ExactLane(a, b), ExactProduct(a, b))
  {
    hide LaneProduct, Product, ExactLane, ExactProduct;
    RealParts(Complex32(16440, 16385), Complex32(8168, -8187), 134281920, -134143995);
  }

  /** Both ends of the bound are reached. */
  lemma LaneErrorIsTight()
    ensures var a, b := Complex32(146, 189), Complex32(-1023, 6868); LaneProduct(a, b).re == Product(a, b).re - 3
    ensures var a, b := Complex32(18, 46), Complex32(-6353, 3759); LaneProduct(a, b).re == Product(a, b).re + 4
  {
    hide LaneProduct, Product, ExactLane, ExactProduct;
    RealParts(Complex32(146, 189), Complex32(-1023, 6868), -149358, 1298052);
    RealParts(Complex32(18, 46), Complex32(-6353, 3759), -114354, 172914);
    WrapSmall(-177);
    WrapSmall(-180);
    WrapSmall(-36);
    WrapSmall(-32);
  }

  // ---------------------------------------------------------------------------
  // Bounds under which nothing wraps
  // ---------------------------------------------------------------------------

  /** Coefficients for which no 16-bit value wraps. */
  predicate Moderate(a: Complex32, b: Complex32) {
    && -16000 <= a.re <= 16000 && -16000 <= a.im <= 16000
    && -8192 <= b.re <= 8192 && -8192 <= b.im <= 8192
  }

  lemma ProductRange(x: int, y: int)
    requires -16000 <= x <= 16000 && -8192 <= y <= 8192
    ensures -131072000 <= x * y <= 131072000
  {
    var m := if x >= 0 then x else -x;
    DivMod.Scale(-8192, y, m);
    DivMod.Scale(y, 8192, m);
    assert x * y == m * y || x * y == -(m * y);
  }

  lemma RoundedRange(p: int)
    requires -131072000 <= p <= 131072000
    ensures -4000 <= Rounded(p) <= 4000
  {
  }

  /** Every value that the programs compute on the way to the two products. */
  predicate NothingWraps(a: Complex32, b: Complex32) {
    && MulHrs(a.re, b.re) == Rounded(a.re * b.re) && MulHrs(a.im, b.im) == Rounded(a.im * b.im)
    && MulHrs(a.re, b.im) == Rounded(a.re * b.im) && MulHrs(a.im, b.re) == Rounded(a.im * b.re)
    && Wrap16(MulHrs(a.re, b.re) - MulHrs(a.im, b.im)) == MulHrs(a.re, b.re) - MulHrs(a.im, b.im)
    && Wrap16(MulHrs(a.re, b.im) + MulHrs(a.im, b.re)) == MulHrs(a.re, b.im) + MulHrs(a.im, b.re)
    && Wrap32(a.re * b.re - a.im * b.im) == a.re * b.re - a.im * b.im
    && Wrap32(a.re * b.im + a.im * b.re) == a.re * b.im + a.im * b.re
    && LaneProduct(a, b) == ExactLane(a, b) && Product(a, b) == ExactProduct(a, b)
  }

  /** Within the bounds nothing wraps, and the lane product differs from the scalar product
      by -3 to 4 in each component. */
  lemma LaneError(a: Complex32, b: Complex32)
    requires Moderate(a, b)
    ensures NothingWraps(a, b)
    ensures Near(LaneProduct(a, b), Product(a, b), -3, 4)
  {
    hide LaneProduct, Product, ExactLane, ExactProduct, MulHrs, Wrap16, Wrap32, Rounded;
    ProductRange(a.re, b.re);
    ProductRange(a.im, b.im);
    ProductRange(a.re, b.im);
    ProductRange(a.im, b.re);
    RealFits(a, b, a.re * b.re, a.im * b.im);
    ImaginaryFits(a, b, a.re * b.im, a.im * b.re);
    ExactError(a, b);
  }

  lemma MulHrsFits(x: int, y: int)
    requires -131072000 <= x * y <= 131072000
    ensures MulHrs(x, y) == Rounded(x * y) && -4000 <= Rounded(x * y) <= 4000
  {
    hide Wrap16;
    RoundedRange(x * y);
    WrapSmall(Rounded(x * y));
  }

  lemma SumFits(p: int, q: int)
    requires -131072000 <= p <= 131072000 && -131072000 <= q <= 131072000
    ensures Wrap32(p - q) == p - q && Wrap32(p + q) == p + q
    ensures Wrap16((p - q) / 8192) == (p - q) / 8192 && Wrap16((p + q) / 8192) == (p + q) / 8192
    ensures Wrap16(Rounded(p) - Rounded(q)) == Rounded(p) - Rounded(q)
    ensures Wrap16(Rounded(p) + Rounded(q)) == Rounded(p) + Rounded(q)
    ensures Wrap16((Rounded(p) - Rounded(q)) * 4) == (Rounded(p) - Rounded(q)) * 4
    ensures Wrap16((Rounded(p) + Rounded(q)) * 4) == (Rounded(p) + Rounded(q)) * 4
  {
    hide Wrap16, Wrap32, Rounded;
    RoundedRange(p);
    RoundedRange(q);
    Wrap32Small(p - q);
    Wrap32Small(p + q);
    WrapSmall((p - q) / 8192);
    WrapSmall((p + q) / 8192);
    WrapSmall(Rounded(p) - Rounded(q));
    WrapSmall(Rounded(p) + Rounded(q));
    WrapSmall((Rounded(p) - Rounded(q)) * 4);
    WrapSmall((Rounded(p) + Rounded(q)) * 4);
  }

  lemma RealFits(a: Complex32, b: Complex32, p: int, q: int)
    requires p == a.re * b.re && q == a.im * b.im
    requires -131072000 <= p <= 131072000 && -131072000 <= q <= 131072000
    ensures MulHrs(a.re, b.re) == Rounded(p) && MulHrs(a.im, b.im) == Rounded(q)
    ensures Wrap16(Rounded(p) - Rounded(q)) == Rounded(p) - Rounded(q) && Wrap32(p - q) == p - q
    ensures LaneProduct(a, b).re == ExactLane(a, b).re && Product(a, b).re == ExactProduct(a, b).re
  {
    hide LaneProduct, Product, ExactLane, ExactProduct, MulHrs, Wrap16, Wrap32, Rounded;
    MulHrsFits(a.re, b.re);
    MulHrsFits(a.im, b.im);
    SumFits(p, q);
    RealParts(a, b, p, q);
  }

  lemma ImaginaryFits(a: Complex32, b: Complex32, p: int, q: int)
    requires p == a.re * b.im && q == a.im * b.re
    requires -131072000 <= p <= 131072000 && -131072000 <= q <= 131072000
    ensures MulHrs(a.re, b.im) == Rounded(p) && MulHrs(a.im, b.re) == Rounded(q)
    ensures Wrap16(Rounded(p) + Rounded(q)) == Rounded(p) + Rounded(q) && Wrap32(p + q) == p + q
    ensures LaneProduct(a, b).im == ExactLane(a, b).im && Product(a, b).im == ExactProduct(a, b).im
  {
    hide LaneProduct, Product, ExactLane, ExactProduct, MulHrs, Wrap16, Wrap32, Rounded;
    MulHrsFits(a.re, b.im);
    MulHrsFits(a.im, b.re);
    SumFits(p, q);
    ImaginaryParts(a, b, p, q);
  }

  // ---------------------------------------------------------------------------
  // Sums of products
  // ---------------------------------------------------------------------------

  /** The scalar inner product: temp starts at zero and is converted after each addition. */
  function ScalarDot(h: seq<Complex32>, x: seq<Complex32>): (c: Complex32)
    requires |h| == |x|
  {
    if h == [] then ORIGIN
    else Sum(ScalarDot(h[..|h| - 1], x[..|h| - 1]), Product(h[|h| - 1], x[|h| - 1]))
  }

  /** The lane inner product: the first product starts the sum. */
  function LaneDot(h: seq<Complex32>, x: seq<Complex32>): (c: Complex32)
    requires |h| == |x| > 0
  {
    if |h| == 1 then LaneProduct(h[0], x[0])
    else Sum(LaneDot(h[..|h| - 1], x[..|h| - 1]), LaneProduct(h[|h| - 1], x[|h| - 1]))
  }

  function Plus(a: Complex32, b: Complex32): (c: Complex32) {
    Complex32(a.re + b.re, a.im + b.im)
  }

  /** The inner products in unbounded integers. */
  function ExactScalarDot(h: seq<Complex32>, x: seq<Complex32>): (c: Complex32)
    requires |h| == |x|
  {
    if h == [] then ORIGIN
    else Plus(ExactScalarDot(h[..|h| - 1], x[..|h| - 1]), ExactProduct(h[|h| - 1], x[|h| - 1]))
  }

  function ExactLaneDot(h: seq<Complex32>, x: seq<Complex32>): (c: Complex32)
    requires |h| == |x|
  {
    if h == [] then ORIGIN
    else Plus(ExactLaneDot(h[..|h| - 1], x[..|h| - 1]), ExactLane(h[|h| - 1], x[|h| - 1]))
  }

  lemma WrappedSum(u: Complex32, v: Complex32)
    ensures Sum(Wrapped(u), Wrapped(v)) == Wrapped(Plus(u, v)) && Wrapped(Plus(ORIGIN, u)) == Wrapped(u)
  {
    hide Wrap16;
    WrapInside(u.re, Wrap16(v.re));
    WrapInside(v.re, u.re);
    WrapInside(u.im, Wrap16(v.im));
    WrapInside(v.im, u.im);
  }

  /** For all samples both inner products are the unbounded ones modulo 65536. */
  lemma {:induction false} DotsAreWrapped(h: seq<Complex32>, x: seq<Complex32>)
    requires |h| == |x|
    ensures ScalarDot(h, x) == Wrapped(ExactScalarDot(h, x))
    ensures |h| > 0 ==> LaneDot(h, x) == Wrapped(ExactLaneDot(h, x))
    decreases |h|
  {
    hide Product, LaneProduct, ExactProduct, ExactLane, Sum, Plus, Wrapped;
    if h == [] {
      OriginFits();
    } else {
      var last := |h| - 1;
      DotsAreWrapped(h[..last], x[..last]);
      ProductsAreWrapped(h[last], x[last]);
      WrappedSum(ExactScalarDot(h[..last], x[..last]), ExactProduct(h[last], x[last]));
      WrappedSum(ExactLaneDot(h[..last], x[..last]), ExactLane(h[last], x[last]));
      WrappedSum(ExactLane(h[last], x[last]), ORIGIN);
    }
  }

  lemma OriginFits()
    ensures Wrapped(ORIGIN) == ORIGIN
  {
  }

  /** For all samples the unbounded inner products of n terms are -3 n to 4 n apart. */
  lemma {:induction false} ExactDotError(h: seq<Complex32>, x: seq<Complex32>)
    requires |h| == |x|
    ensures Near(ExactLaneDot(h, x), ExactScalarDot(h, x), -3 * |h|, 4 * |h|)
    decreases |h|
  {
    hide ExactProduct, ExactLane;
    if h != [] {
      var last := |h| - 1;
      ExactDotError(h[..last], x[..last]);
      ExactError(h[last], x[last]);
    }
  }

  /** v is s + e in 16-bit arithmetic. */
  predicate Off(v: int, s: int, e: int) {
    v == Wrap16(s + e)
  }

  /** v is s plus an error from low to high, in 16-bit arithmetic. */
  ghost predicate NearModulo(v: Complex32, s: Complex32, low: int, high: int) {
    && (exists e :: low <= e <= high && Off(v.re, s.re, e))
    && (exists e :: low <= e <= high && Off(v.im, s.im, e))
  }

  /** Values near each other before the conversion are near each other modulo 65536. */
  lemma NearWrapped(v: Complex32, s: Complex32, low: int, high: int)
    requires Near(v, s, low, high)
    ensures NearModulo(Wrapped(v), Wrapped(s), low, high)
  {
    hide Wrap16;
    var e, f := v.re - s.re, v.im - s.im;
    WrapInside(s.re, e);
    WrapInside(s.im, f);
    assert Off(Wrapped(v).re, Wrapped(s).re, e) && Off(Wrapped(v).im, Wrapped(s).im, f);
  }

  /** For all samples the inner products differ by -3 n to 4 n in 16-bit arithmetic, whether
      or not any product or sum wraps. */
  lemma DotError(h: seq<Complex32>, x: seq<Complex32>)
    requires |h| == |x| > 0
    ensures NearModulo(LaneDot(h, x), ScalarDot(h, x), -3 * |h|, 4 * |h|)
  {
    hide LaneDot, ScalarDot, ExactLaneDot, ExactScalarDot, Wrapped, Near, NearModulo;
    DotsAreWrapped(h, x);
    ExactDotError(h, x);
    NearWrapped(ExactLaneDot(h, x), ExactScalarDot(h, x), -3 * |h|, 4 * |h|);
  }

  lemma NearIffSameLapsWithin(v: int, s: int, low: int, high: int)
    requires low <= v - s <= high && high - low < 65536
    ensures low <= Wrap16(v) - Wrap16(s) <= high <==> Laps(v) == Laps(s)
  {
    hide Laps;
    LapsOf(v);
    LapsOf(s);
    DivMod.SmallMultiple(Laps(v) - Laps(s), 65536);
  }

  /** And the difference itself lies within the bound if and only if the two sums have left
      the 16-bit range equally often; from 9363 terms on the bound is wider than that range. */
  lemma DotErrorIff(h: seq<Complex32>, x: seq<Complex32>)
    requires |h| == |x| > 0 && 7 * |h| < 65536
    ensures Near(LaneDot(h, x), ScalarDot(h, x), -3 * |h|, 4 * |h|)
      <==> SameLaps(ExactLaneDot(h, x), ExactScalarDot(h, x))
  {
    hide LaneDot, ScalarDot, ExactLaneDot, ExactScalarDot, Wrap16, Laps;
    DotsAreWrapped(h, x);
    ExactDotError(h, x);
    var v, s, low, high := ExactLaneDot(h, x), ExactScalarDot(h, x), -3 * |h|, 4 * |h|;
    NearIffSameLapsWithin(v.re, s.re, low, high);
    NearIffSameLapsWithin(v.im, s.im, low, high);
  }

  /** Where the scalar result keeps its distance from the ends of the 16-bit range, the
      difference itself lies within the bound. */
  lemma NearFromModulo(v: Complex32, s: Complex32, low: int, high: int)
    requires NearModulo(v, s, low, high)
    requires -32768 - low <= s.re < 32768 - high && -32768 - low <= s.im < 32768 - high
    ensures Near(v, s, low, high)
  {
    var e :| low <= e <= high && Off(v.re, s.re, e);
    var f :| low <= f <= high && Off(v.im, s.im, f);
    WrapSmall(s.re + e);
    WrapSmall(s.im + f);
  }
}
