/**
 The inverse transform undoes the forward one.  The proof goes down the same butterflies
 as the fast transform: the even outputs of the inverse of a butterfly see only its even
 half, the odd outputs only its odd half, each twice.
 */
module FourierInverse {
  import opened NegacyclicRing
  import opened PowersOfTwo
  import opened BitReversal
  import opened Fourier
  import DivMod

  /** Every element divided by the length, as the last loops of IDFT and IFFT do. */
  function DivideAll(x: seq<Elem>, n: nat): (y: seq<Elem>)
    requires n > 0
    ensures |y| == |x| && forall i :: 0 <= i < |x| ==> y[i] == Scale(x[i], 1.0 / (n as real))
  {
    seq(|x|, i requires 0 <= i < |x| => Scale(x[i], 1.0 / (n as real)))
  }

  /** The inverse transform: the conjugate root and a division by the length. */
  function InverseDft(x: seq<Elem>, d: nat, s: int): (y: seq<Elem>)
    requires InRing(x, d) && |x| > 0
    ensures |y| == |x| && InRing(y, d)
  {
    DivideAll(Dft(x, d, -s), |x|)
  }

  /** The transform of two runs, one after the other. */
  lemma {:induction false} Concat(p: seq<Elem>, q: seq<Elem>, d: nat, s: int, n: int)
    requires InRing(p, d) && InRing(q, d)
    ensures InRing(p + q, d)
    ensures DftAt(p + q, d, s, n) == Add(DftAt(p, d, s, n), Rot(DftAt(q, d, s, n), s * n * |p|))
    decreases |q|
  {
    hide Rot, Add, Zero;
    var e := s * n * |p|;
    if |q| == 0 {
      assert p + q == p;
      EmptyDft(q, d, s, n);
      RotZero(d, e);
      AddZero(DftAt(p, d, s, n));
    } else {
      var last := |q| - 1;
      var r, a := q[..last], q[last];
      Concat(p, r, d, s, n);
      assert q == r + [a] && p + q == (p + r) + [a];
      ConcatStep(p, r, a, d, s, n);
    }
  }

  lemma ConcatStep(p: seq<Elem>, r: seq<Elem>, a: Elem, d: nat, s: int, n: int)
    requires InRing(p, d) && InRing(r, d) && |a| == d
    requires DftAt(p + r, d, s, n) == Add(DftAt(p, d, s, n), Rot(DftAt(r, d, s, n), s * n * |p|))
    ensures InRing(p + r + [a], d) && InRing(r + [a], d)
    ensures DftAt(p + r + [a], d, s, n) == Add(DftAt(p, d, s, n), Rot(DftAt(r + [a], d, s, n), s * n * |p|))
  {
    hide DftAt, Rot, Add;
    var e, u, v := s * n * |p|, DftAt(p, d, s, n), DftAt(r, d, s, n);
    DftAppend(p + r, a, d, s, n);
    DftAppend(r, a, d, s, n);
    ConcatExponent(s, n, |p|, |r|);
    var w := s * n * |r|;
    RotRot(a, w, e);
    RotAdd(v, Rot(a, w), e);
    Regroup(u, Rot(v, e), Rot(a, w + e), Zero(d));
  }

  lemma EmptyDft(q: seq<Elem>, d: nat, s: int, n: int)
    requires InRing(q, d) && |q| == 0
    ensures DftAt(q, d, s, n) == Zero(d)
  {
  }

  lemma ConcatExponent(s: int, n: int, p: int, l: int)
    ensures s * n * (p + l) == s * n * l + s * n * p
  {
    DivMod.Distribute(p, l, s * n);
  }

  /** Two runs whose elements add up to twice those of e: their transforms at an even
      place add up to twice the transform of e. */
  lemma {:induction false} EvenPlace(p: seq<Elem>, q: seq<Elem>, e: seq<Elem>, d: nat, t: int, r: int)
    requires InRing(p, d) && InRing(q, d) && InRing(e, d) && |p| == |q| == |e|
    requires forall m :: 0 <= m < |e| ==> Add(p[m], q[m]) == Scale(e[m], 2.0)
    ensures Add(DftAt(p, d, t, 2 * r), DftAt(q, d, t, 2 * r)) == Scale(DftAt(e, d, 2 * t, r), 2.0)
    decreases |e|
  {
    hide Rot, Add, Scale, Zero;
    if |e| == 0 {
      EmptySums(d);
    } else {
      var l := |e| - 1;
      EvenPlace(p[..l], q[..l], e[..l], d, t, r);
      var u := t * (2 * r) * l;
      assert u == 2 * t * r * l;
      RotAdd(p[l], q[l], u);
      RotScale(e[l], 2.0, u);
      Regroup(DftAt(p[..l], d, t, 2 * r), Rot(p[l], u), DftAt(q[..l], d, t, 2 * r), Rot(q[l], u));
      ScaleAdd(DftAt(e[..l], d, 2 * t, r), Rot(e[l], u), 2.0);
    }
  }

  lemma EmptySums(d: nat)
    ensures Add(Zero(d), Zero(d)) == Zero(d) == Scale(Zero(d), 2.0) == Sub(Zero(d), Zero(d))
  {
    var z := Zero(d);
    assert Add(z, z) == z && Scale(z, 2.0) == z && Sub(z, z) == z;
  }

  /** Two runs whose elements differ by twice the twisted elements of o: their transforms at
      an odd place differ by twice the transform of o. */
  lemma {:induction false} OddPlace(p: seq<Elem>, q: seq<Elem>, o: seq<Elem>, d: nat, t: int, r: int)
    requires InRing(p, d) && InRing(q, d) && InRing(o, d) && |p| == |q| == |o|
    requires forall m :: 0 <= m < |o| ==> Sub(p[m], q[m]) == Scale(Rot(o[m], -t * m), 2.0)
    ensures Sub(DftAt(p, d, t, 2 * r + 1), DftAt(q, d, t, 2 * r + 1)) == Scale(DftAt(o, d, 2 * t, r), 2.0)
    decreases |o|
  {
    hide Rot, Add, Scale, Zero, Sub;
    var n := 2 * r + 1;
    if |o| == 0 {
      EmptySums(d);
    } else {
      var l := |o| - 1;
      OddPlace(p[..l], q[..l], o[..l], d, t, r);
      var u, v, w := t * n * l, -t * l, 2 * t * r * l;
      OddExponent(t, r, l);
      RotAdd(p[l], q[l], u);
      RotRot(o[l], v, u);
      RotScale(Rot(o[l], v), 2.0, u);
      Regroup(DftAt(p[..l], d, t, n), Rot(p[l], u), DftAt(q[..l], d, t, n), Rot(q[l], u));
      ScaleAdd(DftAt(o[..l], d, 2 * t, r), Rot(o[l], w), 2.0);
    }
  }

  lemma OddExponent(t: int, r: int, l: int)
    ensures -t * l + t * (2 * r + 1) * l == 2 * t * r * l
  {
    assert t * (2 * r + 1) == 2 * t * r + t;
    DivMod.Distribute(2 * t * r, t, l);
  }

  /** The sums and the differences that the inverse transform makes of a butterfly. */
  lemma ButterflySums(e: seq<Elem>, o: seq<Elem>, d: nat, s: int, m: nat)
    requires InRing(e, d) && InRing(o, d) && |e| == |o| && m < |e|
    ensures Add(Butterfly(e, o, d, s)[m], Butterfly(e, o, d, s)[|e| + m]) == Scale(e[m], 2.0)
    ensures Sub(Butterfly(e, o, d, s)[m], Butterfly(e, o, d, s)[|e| + m]) == Scale(Rot(o[m], s * m), 2.0)
  {
    hide Butterfly, Rot, Add, Sub, Scale;
    SumAndDifference(e[m], Rot(o[m], s * m));
  }

  lemma SumAndDifference(a: Elem, b: Elem)
    requires |a| == |b|
    ensures Add(Add(a, b), Sub(a, b)) == Scale(a, 2.0)
    ensures Sub(Add(a, b), Sub(a, b)) == Scale(b, 2.0)
  {
    assert Add(Add(a, b), Sub(a, b)) == Scale(a, 2.0);
    assert Sub(Add(a, b), Sub(a, b)) == Scale(b, 2.0);
  }

  /** Inverting a butterfly: even outputs come from its even half, odd ones from its odd half. */
  lemma InvertButterfly(e: seq<Elem>, o: seq<Elem>, d: nat, s: int, c: int, r: int)
    requires InRing(e, d) && InRing(o, d) && |e| == |o| > 0 && s * |e| == d + c * (2 * d)
    ensures DftAt(Butterfly(e, o, d, s), d, -s, 2 * r) == Scale(DftAt(e, d, -2 * s, r), 2.0)
    ensures DftAt(Butterfly(e, o, d, s), d, -s, 2 * r + 1) == Scale(DftAt(o, d, -2 * s, r), 2.0)
  {
    hide Butterfly, Rot, Add, Sub, Scale, DftAt;
    var x, h, t := Butterfly(e, o, d, s), |e|, -s;
    var p, q := x[..h], x[h..];
    assert x == p + q;
    forall m | 0 <= m < h
      ensures Add(p[m], q[m]) == Scale(e[m], 2.0) && Sub(p[m], q[m]) == Scale(Rot(o[m], -t * m), 2.0)
    {
      ButterflySums(e, o, d, s, m);
    }
    EvenPlace(p, q, e, d, t, r);
    OddPlace(p, q, o, d, t, r);
    Concat(p, q, d, t, 2 * r);
    Concat(p, q, d, t, 2 * r + 1);
    InverseExponents(s, h, d, c, r);
    RotNone(DftAt(q, d, t, 2 * r), t * (2 * r) * h, -r * (1 + 2 * c));
    var b := DftAt(q, d, t, 2 * r + 1);
    RotHalf(b, 0, t * (2 * r + 1) * h, -r * (1 + 2 * c) - 1 - c);
    RotNone(b, 0, 0);
    AddNegated(DftAt(p, d, t, 2 * r + 1), b);
  }

  lemma InverseExponents(s: int, h: int, d: int, c: int, r: int)
    requires s * h == d + c * (2 * d)
    ensures -s * (2 * r) * h == (-r * (1 + 2 * c)) * (2 * d)
    ensures -s * (2 * r + 1) * h == 0 + d + (-r * (1 + 2 * c) - 1 - c) * (2 * d)
  {
    var k, a := 2 * d, -r * (1 + 2 * c);
    var sh := s * h;
    assert -s * (2 * r) * h == -(2 * r) * sh;
    assert 2 * sh == (1 + 2 * c) * k;
    assert -(2 * r) * sh == -r * (2 * sh) == a * k;
    assert -s * (2 * r + 1) == -s * (2 * r) - s;
    DivMod.Distribute(-s * (2 * r), s, h);
    DivMod.Distribute(a, 1 + c, k);
    DivMod.Distribute(1, c, k);
  }

  /** The unscaled inverse transform of the transform is the input times the length. */
  lemma {:induction false} InverseScaled(x: seq<Elem>, d: nat, s: int, k: nat, n: nat)
    requires InRing(x, d) && |x| == Pow2(k) && IsRoot(d, s, Pow2(k)) && n < |x|
    ensures DftAt(Dft(x, d, s), d, -s, n) == Scale(x[n], Pow2(k) as real)
    decreases k
  {
    hide Dft, DftAt, Butterfly, Scale, Evens, Odds;
    if k == 0 {
      InverseOfOne(x, d, s);
    } else {
      hide Pow2, IsRoot;
      Pow2Double(k);
      HalfRoot(d, s, k);
      ButterflyIsDft(x, d, s);
      var h := Pow2(k - 1);
      var c := HalfExponent(d, s, 2 * h);
      var e, o, r := Dft(Evens(x), d, 2 * s), Dft(Odds(x), d, 2 * s), n / 2;
      InvertButterfly(e, o, d, s, c, r);
      if n % 2 == 0 {
        InverseScaled(Evens(x), d, 2 * s, k - 1, r);
        ScaleScale(Evens(x)[r], h as real, 2.0);
      } else {
        InverseScaled(Odds(x), d, 2 * s, k - 1, r);
        ScaleScale(Odds(x)[r], h as real, 2.0);
      }
      assert (h as real) * 2.0 == (2 * h) as real;
    }
  }

  lemma HalfExponent(d: nat, s: int, n: nat) returns (c: int)
    requires n > 1 && n % 2 == 0 && IsRoot(d, s, n)
    ensures s * (n / 2) == d + c * (2 * d)
  {
    c :| s * (n / 2) == d + c * (2 * d);
  }

  lemma InverseOfOne(x: seq<Elem>, d: nat, s: int)
    requires InRing(x, d) && |x| == Pow2(0)
    ensures DftAt(Dft(x, d, s), d, -s, 0) == Scale(x[0], Pow2(0) as real)
  {
    hide DftAt, Scale;
    DftOfOne(x, d, s);
    DftOfOne(x, d, -s);
    ScaleOne(x[0]);
  }

  /** IDFT inverts DFT: every input is restored, for every power of two. */
  lemma InverseRestores(x: seq<Elem>, d: nat, s: int, k: nat)
    requires InRing(x, d) && |x| == Pow2(k) && IsRoot(d, s, Pow2(k))
    ensures InverseDft(Dft(x, d, s), d, s) == x
  {
    hide Dft, DftAt, Scale, Pow2, IsRoot;
    var y := InverseDft(Dft(x, d, s), d, s);
    forall n | 0 <= n < |x|
      ensures y[n] == x[n]
    {
      InverseScaled(x, d, s, k, n);
      ScaleBack(x[n], |x|);
    }
  }

  lemma ScaleBack(a: Elem, n: nat)
    requires n > 0
    ensures Scale(Scale(a, n as real), 1.0 / (n as real)) == a
  {
    Reciprocal(n as real);
    ScaleThere(a, n as real, 1.0 / (n as real));
  }

  lemma Reciprocal(f: real)
    requires f != 0.0
    ensures f * (1.0 / f) == 1.0
  {
  }

  lemma ScaleThere(a: Elem, f: real, g: real)
    requires f * g == 1.0
    ensures Scale(Scale(a, f), g) == a
  {
    ScaleScale(a, f, g);
    ScaleOne(a);
  }

  lemma ScaleOne(a: Elem)
    ensures Scale(a, 1.0) == a
  {
    assert Scale(a, 1.0) == a;
  }

  /** The transform loses nothing: different inputs have different transforms. */
  lemma DftInjective(x: seq<Elem>, y: seq<Elem>, d: nat, s: int, k: nat)
    requires InRing(x, d) && InRing(y, d) && |x| == |y| == Pow2(k) && IsRoot(d, s, Pow2(k))
    requires Dft(x, d, s) == Dft(y, d, s)
    ensures x == y
  {
    InverseRestores(x, d, s, k);
    InverseRestores(y, d, s, k);
  }

  /** The conjugate of a root is a root of the same order. */
  lemma ConjugateRoot(d: nat, s: int, n: nat)
    requires IsRoot(d, s, n)
    ensures IsRoot(d, -s, n)
  {
    if n > 1 {
      var h := n / 2;
      var c :| s * h == d + c * (2 * d);
      assert (-s) * h == -(s * h);
      assert -(d + c * (2 * d)) == d + (-c - 1) * (2 * d);
    }
  }

  /** And the other way round: DFT inverts IDFT. */
  lemma ForwardRestores(x: seq<Elem>, d: nat, s: int, k: nat)
    requires InRing(x, d) && |x| == Pow2(k) && IsRoot(d, s, Pow2(k))
    ensures Dft(InverseDft(x, d, s), d, s) == x
  {
    hide Dft, DftAt, Scale, Pow2, IsRoot;
    ConjugateRoot(d, s, |x|);
    var z := Dft(x, d, -s);
    var y := Dft(DivideAll(z, |x|), d, s);
    forall n | 0 <= n < |x|
      ensures y[n] == x[n]
    {
      InverseScaled(x, d, -s, k, n);
      assert -(-s) == s;
      DftOfScaled(z, DivideAll(z, |x|), d, s, n, 1.0 / (|x| as real));
      ScaleBack(x[n], |x|);
    }
  }

  lemma {:induction false} DftOfScaled(x: seq<Elem>, y: seq<Elem>, d: nat, s: int, m: int, f: real)
    requires InRing(x, d) && |y| == |x| && forall i :: 0 <= i < |x| ==> y[i] == Scale(x[i], f)
    ensures InRing(y, d) && DftAt(y, d, s, m) == Scale(DftAt(x, d, s, m), f)
    decreases |x|
  {
    hide Rot, Scale;
    if |x| == 0 {
      ScaledZero(d, f);
    } else {
      var l := |x| - 1;
      DftOfScaled(x[..l], y[..l], d, s, m, f);
      RotScale(x[l], f, s * m * l);
      ScaleAdd(DftAt(x[..l], d, s, m), Rot(x[l], s * m * l), f);
    }
  }

  lemma ScaledZero(d: nat, f: real)
    ensures Scale(Zero(d), f) == Zero(d)
  {
    assert Scale(Zero(d), f) == Zero(d);
  }
}
