/**
 The naive discrete Fourier transform, the bit-reversing reordering and the butterfly
 stages as functions on sequences, and the theorems that connect them.  The root of unity
 of a transform is x^s for an integer s; s is positive for the forward transform and
 negative for the inverse one.
 */
module Fourier {
  import opened NegacyclicRing
  import opened PowersOfTwo
  import opened BitReversal
  import DivMod

  /** A sequence of elements of one ring. */
  ghost predicate InRing(x: seq<Elem>, d: nat) {
    d > 0 && forall i :: 0 <= i < |x| ==> |x[i]| == d
  }

  // ---------------------------------------------------------------------------
  // The naive transform
  // ---------------------------------------------------------------------------

  /** The sum over n of x[n] * root^(m * n). */
  function DftAt(x: seq<Elem>, d: nat, s: int, m: int): (y: Elem)
    requires InRing(x, d)
    ensures |y| == d
  {
    if |x| == 0 then Zero(d)
    else
      var last := |x| - 1;
      Add(DftAt(x[..last], d, s, m), Rot(x[last], s * m * last))
  }

  function Dft(x: seq<Elem>, d: nat, s: int): (y: seq<Elem>)
    requires InRing(x, d)
    ensures |y| == |x| && InRing(y, d)
    ensures forall m :: 0 <= m < |x| ==> y[m] == DftAt(x, d, s, m)
  {
    seq(|x|, m requires 0 <= m < |x| => DftAt(x, d, s, m))
  }

  lemma DftAppend(x: seq<Elem>, a: Elem, d: nat, s: int, m: int)
    requires InRing(x, d) && |a| == d
    ensures InRing(x + [a], d)
    ensures DftAt(x + [a], d, s, m) == Add(DftAt(x, d, s, m), Rot(a, s * m * |x|))
  {
    assert (x + [a])[..|x|] == x;
  }

  lemma DftOfOne(x: seq<Elem>, d: nat, s: int)
    requires InRing(x, d) && |x| == 1
    ensures Dft(x, d, s) == x
    ensures DftAt(x, d, s, 0) == x[0]
  {
    RotNone(x[0], 0, 0);
    AddZero(x[0]);
    assert s * 0 * 0 == 0;
    assert x[..0] == [];
    assert Dft(x, d, s)[0] == DftAt(x, d, s, 0);
  }

  /** x^s is a root of unity of order n, and its n/2-th power is -1. */
  ghost predicate IsRoot(d: nat, s: int, n: nat) {
    d > 0 && n > 0 && (n == 1 || exists c :: s * (n / 2) == d + c * (2 * d))
  }

  // ---------------------------------------------------------------------------
  // Splitting into even and odd places (decimation in time)
  // ---------------------------------------------------------------------------

  /** The transform of a sequence from the transforms of its even and odd places. */
  lemma {:induction false} EvenOdd(x: seq<Elem>, d: nat, s: int, m: int)
    requires InRing(x, d) && |x| % 2 == 0
    ensures InRing(Evens(x), d) && InRing(Odds(x), d)
    ensures DftAt(x, d, s, m) == Add(DftAt(Evens(x), d, 2 * s, m), Rot(DftAt(Odds(x), d, 2 * s, m), s * m))
    decreases |x|
  {
    if |x| == 0 {
      RotZero(d, s * m);
      AddZero(Zero(d));
    } else {
      var n := |x| / 2 - 1;
      var y, a, b := x[..2 * n], x[2 * n], x[2 * n + 1];
      EvenOdd(y, d, s, m);
      assert Evens(x) == Evens(y) + [a] && Odds(x) == Odds(y) + [b] && x == y + [a] + [b];
      EvenOddStep(y, Evens(y), Odds(y), a, b, d, s, m);
    }
  }

  lemma EvenOddStep(y: seq<Elem>, e: seq<Elem>, o: seq<Elem>, a: Elem, b: Elem, d: nat, s: int, m: int)
    requires InRing(y, d) && InRing(e, d) && InRing(o, d) && |a| == |b| == d
    requires |y| == 2 * |e| == 2 * |o|
    requires DftAt(y, d, s, m) == Add(DftAt(e, d, 2 * s, m), Rot(DftAt(o, d, 2 * s, m), s * m))
    ensures InRing(y + [a] + [b], d) && InRing(e + [a], d) && InRing(o + [b], d)
    ensures DftAt(y + [a] + [b], d, s, m)
         == Add(DftAt(e + [a], d, 2 * s, m), Rot(DftAt(o + [b], d, 2 * s, m), s * m))
  {
    hide DftAt, Rot;
    var n, p, q := |e|, DftAt(e, d, 2 * s, m), DftAt(o, d, 2 * s, m);
    var u, v := s * m * (2 * n), s * m * (2 * n + 1);
    DftAppend(y, a, d, s, m);
    DftAppend(y + [a], b, d, s, m);
    DftAppend(e, a, d, 2 * s, m);
    DftAppend(o, b, d, 2 * s, m);
    Exponents(s, m, n);
    RotRot(b, u, s * m);
    RotAdd(q, Rot(b, u), s * m);
    Regroup(p, Rot(q, s * m), Rot(a, u), Rot(b, v));
    Regroup(Add(p, Rot(q, s * m)), Rot(a, u), Rot(b, v), Zero(d));
  }

  lemma Exponents(s: int, m: int, n: int)
    ensures 2 * s * m * n == s * m * (2 * n)
    ensures s * m * (2 * n + 1) == s * m * (2 * n) + s * m
  {
    var p := s * m;
    assert 2 * s * m == 2 * p;
    assert p * (2 * n) == 2 * (p * n) == (2 * p) * n;
  }

  /** Moving h places along a transform whose root has order h changes nothing. */
  lemma {:induction false} Periodic(x: seq<Elem>, d: nat, s: int, m: int, h: int, c: int)
    requires InRing(x, d) && s * h == c * (2 * d)
    ensures DftAt(x, d, s, m + h) == DftAt(x, d, s, m)
    decreases |x|
  {
    if |x| > 0 {
      var last := |x| - 1;
      Periodic(x[..last], d, s, m, h, c);
      PeriodExponent(s, m, h, last, c, d);
      RotCongruent(x[last], s * m * last, s * (m + h) * last, c * last);
    }
  }

  lemma PeriodExponent(s: int, m: int, h: int, n: int, c: int, d: int)
    requires s * h == c * (2 * d)
    ensures s * (m + h) * n == s * m * n + c * n * (2 * d)
  {
    var k := 2 * d;
    assert s * (m + h) == s * m + s * h;
    DivMod.Distribute(s * m, s * h, n);
    assert (c * k) * n == c * n * k;
  }

  /** Two elements from two halves: the sum and the difference of a butterfly. */
  function Butterfly(e: seq<Elem>, o: seq<Elem>, d: nat, s: int): (y: seq<Elem>)
    requires InRing(e, d) && InRing(o, d) && |e| == |o|
    ensures |y| == 2 * |e|
    ensures forall m :: 0 <= m < |e| ==> y[m] == Add(e[m], Rot(o[m], s * m))
    ensures forall m :: |e| <= m < 2 * |e| ==> y[m] == Sub(e[m - |e|], Rot(o[m - |e|], s * (m - |e|)))
    ensures InRing(y, d)
  {
    seq(2 * |e|, m requires 0 <= m < 2 * |e| =>
      if m < |e| then Add(e[m], Rot(o[m], s * m))
      else Sub(e[m - |e|], Rot(o[m - |e|], s * (m - |e|))))
  }

  /** One butterfly makes the transform of a sequence from the transforms of its halves. */
  lemma ButterflyIsDft(x: seq<Elem>, d: nat, s: int)
    requires InRing(x, d) && |x| > 0 && |x| % 2 == 0 && IsRoot(d, s, |x|)
    ensures InRing(Evens(x), d) && InRing(Odds(x), d)
    ensures Dft(x, d, s) == Butterfly(Dft(Evens(x), d, 2 * s), Dft(Odds(x), d, 2 * s), d, s)
  {
    hide DftAt, Rot;
    var e, o, h := Evens(x), Odds(x), |x| / 2;
    var c :| s * h == d + c * (2 * d);
    assert InRing(e, d) && InRing(o, d);
    var y := Butterfly(Dft(e, d, 2 * s), Dft(o, d, 2 * s), d, s);
    forall m | 0 <= m < h
      ensures DftAt(x, d, s, m) == y[m]
    {
      EvenOdd(x, d, s, m);
    }
    forall m | h <= m < 2 * h
      ensures DftAt(x, d, s, m) == y[m]
    {
      UpperHalf(x, d, s, m - h, h, c);
    }
  }

  lemma UpperHalf(x: seq<Elem>, d: nat, s: int, m: int, h: int, c: int)
    requires InRing(x, d) && |x| % 2 == 0 && s * h == d + c * (2 * d)
    ensures InRing(Evens(x), d) && InRing(Odds(x), d)
    ensures DftAt(x, d, s, m + h) == Sub(DftAt(Evens(x), d, 2 * s, m), Rot(DftAt(Odds(x), d, 2 * s, m), s * m))
  {
    hide DftAt, Rot;
    EvenOdd(x, d, s, m + h);
    var e, o := Evens(x), Odds(x);
    assert 2 * s * h == (1 + 2 * c) * (2 * d) by {
      assert 2 * s * h == 2 * (s * h);
      assert 2 * (c * (2 * d)) == (2 * c) * (2 * d);
      DivMod.Distribute(1, 2 * c, 2 * d);
    }
    Periodic(e, d, 2 * s, m, h, 1 + 2 * c);
    Periodic(o, d, 2 * s, m, h, 1 + 2 * c);
    var q := DftAt(o, d, 2 * s, m);
    assert s * (m + h) == s * m + d + c * (2 * d);
    RotHalf(q, s * m, s * (m + h), c);
    AddNegated(DftAt(e, d, 2 * s, m), Rot(q, s * m));
  }

  /** Every power of two has a root: x itself in the ring with x^(n/2) == -1. */
  lemma StandardRoot(k: nat)
    ensures IsRoot(if k == 0 then 1 else Pow2(k - 1), 1, Pow2(k))
  {
    if k > 0 {
      hide Pow2;
      Pow2Double(k);
      var d := Pow2(k - 1);
      assert 1 * (Pow2(k) / 2) == d + 0 * (2 * d);
    }
  }

  /** Squaring a root of order 2 * h gives a root of order h. */
  lemma HalfRoot(d: nat, s: int, k: nat)
    requires k > 0 && IsRoot(d, s, Pow2(k))
    ensures IsRoot(d, 2 * s, Pow2(k - 1))
  {
    if k > 1 {
      hide Pow2;
      Pow2Double(k);
      Pow2Double(k - 1);
      var h, g := Pow2(k - 1), Pow2(k - 2);
      assert Pow2(k) / 2 == h && h == 2 * g && h / 2 == g;
      var c :| s * h == d + c * (2 * d);
      SameProduct(s, g);
      assert (2 * s) * (h / 2) == d + c * (2 * d);
    }
  }

  lemma SameProduct(s: int, g: int)
    ensures (2 * s) * g == s * (2 * g)
  {
  }
}
