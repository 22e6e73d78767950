/** The reordering of FFT_remap and the bit-reversal permutation. */
module BitReversal {
  import opened PowersOfTwo

  function Evens<T>(x: seq<T>): (e: seq<T>)
    requires |x| % 2 == 0
    ensures |e| == |x| / 2 && forall i :: 0 <= i < |e| ==> e[i] == x[2 * i]
  {
    seq(|x| / 2, i requires 0 <= i < |x| / 2 => x[2 * i])
  }

  function Odds<T>(x: seq<T>): (o: seq<T>)
    requires |x| % 2 == 0
    ensures |o| == |x| / 2 && forall i :: 0 <= i < |o| ==> o[i] == x[2 * i + 1]
  {
    seq(|x| / 2, i requires 0 <= i < |x| / 2 => x[2 * i + 1])
  }

  // ---------------------------------------------------------------------------
  // The reordering
  // ---------------------------------------------------------------------------

  /** FFT_remap: even places first, odd places second, and the same in each half.  For an
      odd length above one the last element stays where it is. */
  function Remap<T>(x: seq<T>): (y: seq<T>)
    ensures |y| == |x|
    decreases |x|
  {
    if |x| <= 1 then x
    else
      var t, h := Gather(x), |x| / 2;
      Remap(t[..h]) + Remap(t[h..2 * h]) + t[2 * h..]
  }

  /** The temporary array of FFT_remap: entry j is the even place 2 * j, or one of the odd
      places once those run out. */
  function Gather<T>(x: seq<T>): (t: seq<T>)
    ensures |t| == |x|
    ensures forall j :: 0 <= j < |x| ==> t[j] == x[GatherPlace(|x|, j)]
  {
    seq(|x|, j requires 0 <= j < |x| => x[GatherPlace(|x|, j)])
  }

  function GatherPlace(n: nat, j: nat): (i: nat)
    requires j < n
    ensures i < n
  {
    if 2 * j < n then 2 * j else 2 * j - n + (n + 1) % 2
  }

  lemma GatherHalves<T>(x: seq<T>)
    requires |x| % 2 == 0
    ensures Gather(x)[..|x| / 2] == Evens(x) && Gather(x)[|x| / 2..] == Odds(x)
  {
  }

  lemma RemapStep<T>(x: seq<T>, h: nat)
    requires |x| > 1 && h == |x| / 2
    ensures Remap(x) == Remap(Gather(x)[..h]) + Remap(Gather(x)[h..2 * h]) + Gather(x)[2 * h..]
  {
    hide Gather;
  }

  lemma RemapHalves<T>(x: seq<T>)
    requires |x| > 1 && |x| % 2 == 0
    ensures Remap(x) == Remap(Evens(x)) + Remap(Odds(x))
  {
    hide Remap, Gather, Evens, Odds;
    var h := |x| / 2;
    GatherHalves(x);
    RemapStep(x, h);
    assert Gather(x)[h..2 * h] == Gather(x)[h..];
    assert Gather(x)[2 * h..] == [];
  }

  // ---------------------------------------------------------------------------
  // Bit reversal
  // ---------------------------------------------------------------------------

  /** The k-bit number with the bits of j in the opposite order. */
  function BitReverse(k: nat, j: nat): (r: nat) {
    if k == 0 then 0 else (if j % 2 == 1 then Pow2(k - 1) else 0) + BitReverse(k - 1, j / 2)
  }

  lemma {:induction false} BitReverseBound(k: nat, j: nat)
    ensures BitReverse(k, j) < Pow2(k)
  {
    if k > 0 {
      BitReverseBound(k - 1, j / 2);
    }
  }

  /** A number with one more bit in front of its k bits. */
  function TopBit(k: nat, upper: bool): (t: nat) {
    if upper then Pow2(k) else 0
  }

  /** Reversal read from the other end: the top bit becomes the lowest one. */
  lemma {:induction false} BitReverseTop(k: nat, upper: bool, r: nat)
    requires r < Pow2(k)
    ensures BitReverse(k + 1, TopBit(k, upper) + r) == 2 * BitReverse(k, r) + if upper then 1 else 0
    decreases k
  {
    if k == 0 {
      assert BitReverse(0, 0) == 0;
    } else {
      Pow2Double(k);
      var t, j := TopBit(k - 1, upper), TopBit(k, upper) + r;
      assert j == 2 * t + r;
      assert j % 2 == r % 2 && j / 2 == t + r / 2;
      BitReverseTop(k - 1, upper, r / 2);
    }
  }

  lemma {:induction false} BitReverseTwice(k: nat, j: nat)
    requires j < Pow2(k)
    ensures BitReverse(k, BitReverse(k, j)) == j
    decreases k
  {
    if k > 0 {
      var q := BitReverse(k - 1, j / 2);
      BitReverseTwice(k - 1, j / 2);
      BitReverseBound(k - 1, j / 2);
      BitReverseTop(k - 1, j % 2 == 1, q);
    }
  }

  /** For every power of two the reordering is the bit-reversal permutation. */
  lemma {:induction false} RemapIsBitReversal<T>(x: seq<T>, k: nat, j: nat)
    requires |x| == Pow2(k) && j < |x|
    ensures BitReverse(k, j) < |x| && Remap(x)[j] == x[BitReverse(k, j)]
    decreases k
  {
    hide Remap, BitReverse, Pow2, Evens, Odds;
    BitReverseBound(k, j);
    if k == 0 {
      SingleRemap(x);
    } else {
      Pow2Double(k);
      RemapHalves(x);
      var h := Pow2(k - 1);
      var upper := j >= h;
      var r := if upper then j - h else j;
      var half := if upper then Odds(x) else Evens(x);
      RemapIsBitReversal(half, k - 1, r);
      BitReverseTop(k - 1, upper, r);
      assert Remap(x)[j] == Remap(half)[r];
    }
  }

  lemma SingleRemap<T>(x: seq<T>)
    ensures |x| <= 1 ==> Remap(x) == x
    ensures forall j :: BitReverse(0, j) == 0
    ensures Pow2(0) == 1
  {
  }

  /** So reordering twice restores the sequence. */
  lemma RemapTwice<T>(x: seq<T>, k: nat)
    requires |x| == Pow2(k)
    ensures Remap(Remap(x)) == x
  {
    hide Remap, BitReverse;
    var y := Remap(x);
    forall j | 0 <= j < |x|
      ensures Remap(y)[j] == x[j]
    {
      RemapIsBitReversal(y, k, j);
      RemapIsBitReversal(x, k, BitReverse(k, j));
      BitReverseTwice(k, j);
    }
    assert Remap(y) == x;
  }

  /** For every length, power of two or not, no element is lost or repeated. */
  lemma {:induction false} RemapMultiset<T>(x: seq<T>)
    ensures multiset(Remap(x)) == multiset(x)
    decreases |x|
  {
    hide Remap, Gather;
    if |x| > 1 {
      var p, q, r := RemapParts(x);
      GatherMultiset(x);
      RemapMultiset(p);
      RemapMultiset(q);
      ThreeParts(Gather(x), p, q, r);
      ThreeParts(Remap(x), Remap(p), Remap(q), r);
    } else {
      SingleRemap(x);
    }
  }

  lemma RemapParts<T>(x: seq<T>) returns (p: seq<T>, q: seq<T>, r: seq<T>)
    requires |x| > 1
    ensures |p| == |q| == |x| / 2
    ensures Gather(x) == p + q + r
    ensures Remap(x) == Remap(p) + Remap(q) + r
  {
    hide Remap, Gather;
    var t, h := Gather(x), |x| / 2;
    RemapStep(x, h);
    p, q, r := t[..h], t[h..2 * h], t[2 * h..];
  }

  lemma ThreeParts<T>(t: seq<T>, p: seq<T>, q: seq<T>, r: seq<T>)
    requires t == p + q + r
    ensures multiset(t) == multiset(p) + multiset(q) + multiset(r)
  {
  }

  lemma GatherMultiset<T>(x: seq<T>)
    ensures multiset(Gather(x)) == multiset(x)
  {
    hide Gather, Evens, Odds;
    var h := |x| / 2;
    EvensOddsMultiset(x[..2 * h]);
    if 2 * h == |x| {
      GatherEven(x, h);
      assert x == x[..2 * h];
    } else {
      GatherOdd(x, h);
      assert x == x[..2 * h] + [x[2 * h]];
    }
  }

  lemma GatherEven<T>(x: seq<T>, h: nat)
    requires |x| == 2 * h
    ensures Gather(x) == Evens(x[..2 * h]) + Odds(x[..2 * h])
  {
  }

  lemma GatherOdd<T>(x: seq<T>, h: nat)
    requires |x| == 2 * h + 1
    ensures Gather(x) == Evens(x[..2 * h]) + [x[2 * h]] + Odds(x[..2 * h])
  {
  }

  lemma {:induction false} EvensOddsMultiset<T>(x: seq<T>)
    requires |x| % 2 == 0
    ensures multiset(Evens(x)) + multiset(Odds(x)) == multiset(x)
    decreases |x|
  {
    hide Evens, Odds;
    if |x| > 0 {
      var n := |x| - 2;
      var y, a, b := x[..n], x[n], x[n + 1];
      EvensOddsMultiset(y);
      EvensOddsAppend(x, y, a, b);
      assert x == y + [a] + [b];
    }
  }

  lemma EvensOddsAppend<T>(x: seq<T>, y: seq<T>, a: T, b: T)
    requires |y| % 2 == 0 && x == y + [a, b]
    ensures Evens(x) == Evens(y) + [a] && Odds(x) == Odds(y) + [b]
  {
  }
}
