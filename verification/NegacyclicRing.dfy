/**
 Exact arithmetic with roots of unity: the elements of R[x] / (x^d + 1) as vectors of d
 real coefficients.  In this ring x is a root of unity of order 2 * d with x^d == -1, and
 multiplying by a power of x moves the coefficients around with a change of sign, so
 every law below is proved from the coefficients.
 */
module NegacyclicRing {
  import DivMod

  type Elem = seq<real>

  function Zero(d: nat): (z: Elem)
    ensures |z| == d
  {
    seq(d, _ => 0.0)
  }

  function Add(a: Elem, b: Elem): (c: Elem)
    requires |a| == |b|
    ensures |c| == |a| && forall i :: 0 <= i < |c| ==> c[i] == a[i] + b[i]
  {
    seq(|a|, i requires 0 <= i < |a| => a[i] + b[i])
  }

  function Sub(a: Elem, b: Elem): (c: Elem)
    requires |a| == |b|
    ensures |c| == |a| && forall i :: 0 <= i < |c| ==> c[i] == a[i] - b[i]
  {
    seq(|a|, i requires 0 <= i < |a| => a[i] - b[i])
  }

  function Scale(a: Elem, f: real): (c: Elem)
    ensures |c| == |a| && forall i :: 0 <= i < |c| ==> c[i] == a[i] * f
  {
    seq(|a|, i requires 0 <= i < |a| => a[i] * f)
  }

  /** Multiplication by x. */
  function Shift(a: Elem): (c: Elem)
    requires |a| > 0
    ensures |c| == |a|
  {
    [-a[|a| - 1]] + a[..|a| - 1]
  }

  /** Multiplication by x^k. */
  function Turn(a: Elem, k: nat): (c: Elem)
    requires |a| > 0
    ensures |c| == |a|
  {
    if k == 0 then a else Shift(Turn(a, k - 1))
  }

  /** Multiplication by x^e for any integer exponent, reduced modulo the order 2 * d. */
  function Rot(a: Elem, e: int): (c: Elem)
    requires |a| > 0
    ensures |c| == |a|
  {
    Turn(a, e % (2 * |a|))
  }

  lemma {:induction false} TurnTurn(a: Elem, j: nat, k: nat)
    requires |a| > 0
    ensures Turn(Turn(a, j), k) == Turn(a, j + k)
  {
    if k > 0 {
      TurnTurn(a, j, k - 1);
    }
  }

  /** Up to d steps move the tail to the front with the opposite sign. */
  lemma {:induction false} TurnSplit(a: Elem, k: nat)
    requires 0 < |a| && k <= |a|
    ensures forall i :: 0 <= i < |a| ==> Turn(a, k)[i] == if i < k then -a[|a| - k + i] else a[i - k]
  {
    if k > 0 {
      TurnSplit(a, k - 1);
      var b := Turn(a, k - 1);
      assert Turn(a, k) == [-b[|b| - 1]] + b[..|b| - 1];
    }
  }

  /** x^d == -1. */
  lemma HalfTurn(a: Elem)
    requires |a| > 0
    ensures Turn(a, |a|) == Sub(Zero(|a|), a)
  {
    hide Turn, Sub, Zero;
    TurnSplit(a, |a|);
    NegatedCoefficients(a);
    assert Turn(a, |a|) == Sub(Zero(|a|), a);
  }

  lemma NegatedCoefficients(a: Elem)
    ensures forall i :: 0 <= i < |a| ==> Sub(Zero(|a|), a)[i] == -a[i]
  {
  }

  lemma NegateTwice(a: Elem)
    ensures Sub(Zero(|a|), Sub(Zero(|a|), a)) == a
  {
    var b := Sub(Zero(|a|), Sub(Zero(|a|), a));
    assert forall i :: 0 <= i < |a| ==> b[i] == a[i];
  }

  /** x^(2 * d) == 1. */
  lemma FullTurn(a: Elem)
    requires |a| > 0
    ensures Turn(a, 2 * |a|) == a
  {
    hide Turn;
    HalfTurn(a);
    HalfTurn(Turn(a, |a|));
    TurnTurn(a, |a|, |a|);
    NegateTwice(a);
  }

  lemma {:induction false} FullTurns(a: Elem, k: nat, m: nat)
    requires |a| > 0
    ensures 0 <= m * (2 * |a|)
    ensures Turn(a, k + m * (2 * |a|)) == Turn(a, k)
    decreases m
  {
    hide Turn;
    var n := 2 * |a|;
    DivMod.Scale(0, m, n);
    if m > 0 {
      var rest := (m - 1) * n;
      DivMod.Distribute(m, 1, n);
      FullTurns(a, k, m - 1);
      FullTurn(a);
      TurnTurn(a, n, k + rest);
    }
  }

  /** The exponent matters only modulo the order of x. */
  lemma RotTurn(a: Elem, k: nat)
    requires |a| > 0
    ensures Rot(a, k) == Turn(a, k)
  {
    hide Turn;
    var n := 2 * |a|;
    DivMod.Split(k, n);
    FullTurns(a, k % n, k / n);
  }

  lemma RotCongruent(a: Elem, e: int, f: int, m: int)
    requires |a| > 0 && f == e + m * (2 * |a|)
    ensures Rot(a, e) == Rot(a, f)
  {
    DivMod.AddMultiple(e, m, 2 * |a|);
  }

  /** x^e * x^f == x^(e + f). */
  lemma RotRot(a: Elem, e: int, f: int)
    requires |a| > 0
    ensures Rot(Rot(a, e), f) == Rot(a, e + f)
  {
    hide Turn;
    var n := 2 * |a|;
    TurnTurn(a, e % n, f % n);
    RotTurn(a, e % n + f % n);
    DivMod.ReduceInside(e, f % n, n);
    DivMod.ReduceInside(f, e, n);
  }

  lemma RotNone(a: Elem, e: int, m: int)
    requires |a| > 0 && e == m * (2 * |a|)
    ensures Rot(a, e) == a
  {
    RotCongruent(a, 0, e, m);
    DivMod.Unique(0, 2 * |a|, 0, 0);
  }

  /** An odd multiple of d in the exponent changes the sign. */
  lemma RotHalf(a: Elem, e: int, f: int, m: int)
    requires |a| > 0 && f == e + |a| + m * (2 * |a|)
    ensures Rot(a, f) == Sub(Zero(|a|), Rot(a, e))
  {
    hide Turn, Rot;
    RotCongruent(a, e + |a|, f, m);
    RotRot(a, e, |a|);
    RotTurn(Rot(a, e), |a|);
    HalfTurn(Rot(a, e));
  }

  // ---------------------------------------------------------------------------
  // Multiplication by powers of x is linear
  // ---------------------------------------------------------------------------

  lemma {:induction false} TurnAdd(a: Elem, b: Elem, k: nat)
    requires |a| == |b| > 0
    ensures Turn(Add(a, b), k) == Add(Turn(a, k), Turn(b, k))
    ensures Turn(Sub(a, b), k) == Sub(Turn(a, k), Turn(b, k))
  {
    if k > 0 {
      TurnAdd(a, b, k - 1);
      ShiftAdd(Turn(a, k - 1), Turn(b, k - 1));
    }
  }

  lemma ShiftAdd(a: Elem, b: Elem)
    requires |a| == |b| > 0
    ensures Shift(Add(a, b)) == Add(Shift(a), Shift(b))
    ensures Shift(Sub(a, b)) == Sub(Shift(a), Shift(b))
  {
    var c, d := Add(Shift(a), Shift(b)), Sub(Shift(a), Shift(b));
    assert forall i :: 0 <= i < |a| ==> Shift(Add(a, b))[i] == c[i];
    assert forall i :: 0 <= i < |a| ==> Shift(Sub(a, b))[i] == d[i];
  }

  lemma {:induction false} TurnScale(a: Elem, f: real, k: nat)
    requires |a| > 0
    ensures Turn(Scale(a, f), k) == Scale(Turn(a, k), f)
  {
    if k > 0 {
      TurnScale(a, f, k - 1);
      ShiftScale(Turn(a, k - 1), f);
    }
  }

  lemma ShiftScale(a: Elem, f: real)
    requires |a| > 0
    ensures Shift(Scale(a, f)) == Scale(Shift(a), f)
  {
    hide Scale;
    var b, c := Scale(Shift(a), f), Shift(Scale(a, f));
    forall i | 0 <= i < |a|
      ensures c[i] == b[i]
    {
      if i == 0 {
        NegatedProduct(a[|a| - 1], f);
      }
    }
  }

  lemma NegatedProduct(x: real, f: real)
    ensures -(x * f) == (-x) * f
  {
  }

  lemma RotAdd(a: Elem, b: Elem, e: int)
    requires |a| == |b| > 0
    ensures Rot(Add(a, b), e) == Add(Rot(a, e), Rot(b, e))
    ensures Rot(Sub(a, b), e) == Sub(Rot(a, e), Rot(b, e))
  {
    TurnAdd(a, b, e % (2 * |a|));
  }

  lemma RotScale(a: Elem, f: real, e: int)
    requires |a| > 0
    ensures Rot(Scale(a, f), e) == Scale(Rot(a, e), f)
  {
    TurnScale(a, f, e % (2 * |a|));
  }

  lemma RotZero(d: nat, e: int)
    requires d > 0
    ensures Rot(Zero(d), e) == Zero(d)
  {
    var z := Zero(d);
    assert Scale(z, 0.0) == z;
    RotScale(z, 0.0, e);
    var r := Rot(z, e);
    assert forall i :: 0 <= i < d ==> r[i] == Scale(r, 0.0)[i] == 0.0;
  }

  // ---------------------------------------------------------------------------
  // The additive group
  // ---------------------------------------------------------------------------

  lemma AddZero(a: Elem)
    ensures Add(a, Zero(|a|)) == a == Add(Zero(|a|), a)
  {
    assert forall i :: 0 <= i < |a| ==> Add(a, Zero(|a|))[i] == a[i] == Add(Zero(|a|), a)[i];
  }

  /** Sums can be regrouped. */
  lemma Regroup(a: Elem, b: Elem, c: Elem, d: Elem)
    requires |a| == |b| == |c| == |d|
    ensures Add(Add(a, b), Add(c, d)) == Add(Add(a, c), Add(b, d))
    ensures Add(Add(a, b), c) == Add(a, Add(b, c))
    ensures Sub(Add(a, b), Add(c, d)) == Add(Sub(a, c), Sub(b, d))
  {
    var n := |a|;
    assert forall i :: 0 <= i < n ==> Add(Add(a, b), Add(c, d))[i] == Add(Add(a, c), Add(b, d))[i];
    assert forall i :: 0 <= i < n ==> Add(Add(a, b), c)[i] == Add(a, Add(b, c))[i];
    assert forall i :: 0 <= i < n ==> Sub(Add(a, b), Add(c, d))[i] == Add(Sub(a, c), Sub(b, d))[i];
  }

  lemma AddNegated(a: Elem, b: Elem)
    requires |a| == |b|
    ensures Add(a, Sub(Zero(|b|), b)) == Sub(a, b)
  {
    assert forall i :: 0 <= i < |a| ==> Add(a, Sub(Zero(|b|), b))[i] == Sub(a, b)[i];
  }

  lemma ScaleAdd(a: Elem, b: Elem, f: real)
    requires |a| == |b|
    ensures Scale(Add(a, b), f) == Add(Scale(a, f), Scale(b, f))
  {
    assert forall i :: 0 <= i < |a| ==> Scale(Add(a, b), f)[i] == Add(Scale(a, f), Scale(b, f))[i];
  }

  lemma ScaleScale(a: Elem, f: real, g: real)
    ensures Scale(Scale(a, f), g) == Scale(a, f * g)
  {
    assert forall i :: 0 <= i < |a| ==> Scale(Scale(a, f), g)[i] == Scale(a, f * g)[i];
  }
}
