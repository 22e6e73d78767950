/** The procedures of ifft.c: the naive loops, the recursive reordering and the butterfly loops. */
module InPlaceFft {
  import opened NegacyclicRing
  import opened PowersOfTwo
  import opened BitReversal
  import opened Fourier
  import opened FastFourier
  import opened FourierInverse
  import DivMod

  // ---------------------------------------------------------------------------
  // The naive transforms
  // ---------------------------------------------------------------------------

  /** The inner loop of the naive transforms: one output. */
  method NaiveSum(src: array<Elem>, d: nat, s: int, m: nat) returns (sum: Elem)
    requires InRing(src[..], d)
    ensures sum == DftAt(src[..], d, s, m)
  {
    sum := Zero(d);
    assert src[..0] == [];
    for n := 0 to src.Length
      invariant InRing(src[..n], d)
      invariant sum == DftAt(src[..n], d, s, m)
    {
      assert src[..n + 1] == src[..n] + [src[n]];
      DftAppend(src[..n], src[n], d, s, m);
      sum := Add(sum, Rot(src[n], s * m * n));
    }
    assert src[..src.Length] == src[..];
  }

  /** DFT; nothing is stored when there is no destination. */
  method NaiveDft(src: array<Elem>, dst: array?<Elem>, d: nat, s: int)
    requires InRing(src[..], d)
    requires dst != src && (dst != null ==> dst.Length == src.Length)
    modifies dst
    ensures dst != null ==> dst[..] == Dft(src[..], d, s)
  {
    hide DftAt;
    for m := 0 to src.Length
      invariant dst != null ==> forall i :: 0 <= i < m ==> dst[i] == DftAt(src[..], d, s, i)
    {
      var sum := NaiveSum(src, d, s, m);
      if dst != null {
        dst[m] := sum;
      }
    }
  }

  /** IDFT: the conjugate root, and each output divided by the size. */
  method NaiveIdft(src: array<Elem>, dst: array?<Elem>, d: nat, s: int)
    requires InRing(src[..], d) && src.Length > 0
    requires dst != src && (dst != null ==> dst.Length == src.Length)
    modifies dst
    ensures dst != null ==> dst[..] == InverseDft(src[..], d, s)
  {
    for m := 0 to src.Length
      invariant dst != null ==> dst[..m] == InverseDft(src[..], d, s)[..m]
    {
      var sum := NaiveSum(src, d, -s, m);
      sum := Scale(sum, 1.0 / (src.Length as real));
      if dst != null {
        dst[m] := sum;
      }
    }
  }

  // ---------------------------------------------------------------------------
  // The reordering in place
  // ---------------------------------------------------------------------------

  /** Where the loop of FFT_remap stores element i. */
  function ScatterPlace(n: nat, i: nat): (j: nat)
    requires i < n
    ensures j < n
  {
    if i % 2 == 0 then i / 2 else (n + i) / 2
  }

  lemma ScatterInvertsGather(n: nat, i: nat)
    requires i < n
    ensures GatherPlace(n, ScatterPlace(n, i)) == i
    ensures forall j :: 0 <= j < n && GatherPlace(n, j) == i ==> j == ScatterPlace(n, i)
  {
  }

  /** The first loop of FFT_remap: even places to the front of a temporary array, odd places
      behind them. */
  method Scatter(src: array<Elem>, lo: nat, n: nat) returns (temp: array<Elem>)
    requires lo + n <= src.Length
    ensures fresh(temp) && temp[..] == Gather(src[lo..lo + n])
  {
    hide Gather;
    temp := new Elem[n];
    for i := 0 to n
      invariant src[..] == old(src[..])
      invariant forall j :: 0 <= j < n && GatherPlace(n, j) < i ==> temp[j] == src[lo + GatherPlace(n, j)]
    {
      ScatterInvertsGather(n, i);
      if i % 2 == 0 {
        temp[i / 2] := src[lo + i];
      } else {
        temp[(n + i) / 2] := src[lo + i];
      }
    }
    assert forall j :: 0 <= j < n ==> temp[j] == src[lo..lo + n][GatherPlace(n, j)];
  }

  /** Its two loops on the part x of the array: scatter and copy back. */
  method GatherInPlace(
    src: array<Elem>, lo: nat, n: nat, ghost before: seq<Elem>, ghost x: seq<Elem>, ghost after: seq<Elem>)
    requires src[..] == before + x + after && |before| == lo && |x| == n
    modifies src
    ensures src[..] == before + Gather(x) + after
  {
    hide Gather;
    assert src[..lo] == before && src[lo..lo + n] == x && src[lo + n..] == after;
    var temp := Scatter(src, lo, n);
    for i := 0 to n
      invariant src[..lo] == before && src[lo + n..] == after
      invariant src[lo..lo + i] == temp[..i]
      invariant temp[..] == Gather(x)
    {
      src[lo + i] := temp[i];
    }
    assert src[..] == src[..lo] + src[lo..lo + n] + src[lo + n..];
  }

  /** FFT_remap on the n elements from place lo on, which hold x; the rest stays as it is. */
  method FftRemap(
    src: array<Elem>, lo: nat, n: nat, ghost before: seq<Elem>, ghost x: seq<Elem>, ghost after: seq<Elem>)
    returns (r: int)
    requires src[..] == before + x + after && |before| == lo && |x| == n >= 1
    modifies src
    ensures src[..] == before + Remap(x) + after
    ensures r == if n == 1 then 0 else 1
    decreases n
  {
    hide Remap, Gather;
    if n == 1 {
      SingleRemap(x);
      return 0;
    }
    GatherInPlace(src, lo, n, before, x, after);
    ghost var p, q, rest := RemapParts(x);
    Regrouped(before, p, q, rest, after);
    var _ := FftRemap(src, lo, n / 2, before, p, q + (rest + after));
    Regrouped(before, Remap(p), q, rest, after);
    var _ := FftRemap(src, lo + n / 2, n / 2, before + Remap(p), q, rest + after);
    Regrouped(before, Remap(p), Remap(q), rest, after);
    return 1;
  }

  lemma Regrouped<T>(a: seq<T>, p: seq<T>, q: seq<T>, r: seq<T>, z: seq<T>)
    ensures a + (p + q + r) + z == a + p + (q + (r + z)) == (a + p) + q + (r + z)
  {
  }

  // ---------------------------------------------------------------------------
  // The butterfly loops
  // ---------------------------------------------------------------------------

  /** The loop that counts halvings: the largest k with 2^k <= n. */
  method Log2(n: nat) returns (z: nat)
    requires n >= 1
    ensures Pow2(z) <= n < Pow2(z + 1)
  {
    var k := n;
    z := 0;
    k := k / 2;
    while k != 0
      invariant Pow2(z) <= n
      invariant 0 <= k && k * Pow2(z + 1) <= n < (k + 1) * Pow2(z + 1)
    {
      Halve(n, k, Pow2(z + 1));
      Pow2Double(z + 2);
      z := z + 1;
      k := k / 2;
    }
  }

  lemma Halve(n: nat, k: nat, p: nat)
    requires k > 0 && k * p <= n < (k + 1) * p
    ensures p <= n && (k / 2) * (2 * p) <= n < (k / 2 + 1) * (2 * p)
  {
    var h := k / 2;
    DivMod.Scale(1, k, p);
    DivMod.Scale(2 * h, k, p);
    DivMod.Scale(k + 1, 2 * h + 2, p);
    assert h * (2 * p) == (2 * h) * p;
    assert (h + 1) * (2 * p) == (2 * h + 2) * p;
  }

  /** The test after that loop: n is a power of two. */
  ghost predicate IsPow2(n: nat) {
    exists k: nat :: n == Pow2(k)
  }

  lemma OnlyPow2(n: nat, z: nat)
    requires Pow2(z) <= n < Pow2(z + 1)
    ensures IsPow2(n) <==> n == Pow2(z)
  {
    forall k: nat | n == Pow2(k)
      ensures k == z
    {
      if k < z {
        Pow2Monotone(k + 1, z);
      }
      if k > z {
        Pow2Monotone(z + 1, k);
      }
    }
  }

  lemma {:induction false} Pow2Monotone(a: nat, b: nat)
    requires a <= b
    ensures Pow2(a) <= Pow2(b)
    decreases b
  {
    if a < b {
      Pow2Monotone(a, b - 1);
    }
  }

  /** Has the loop passed the butterfly of place x when it stands at place j? */
  predicate Passed(x: nat, j: nat, half: nat)
    requires half > 0
  {
    if Upper(x, half) then x < j else x + half < j
  }

  /** Place x while the loop of one stage stands at place j. */
  ghost predicate PlaceDone(y: seq<Elem>, now: Elem, d: nat, half: nat, s: int, j: nat, x: nat)
    requires InRing(y, d) && half > 0 && |y| % (2 * half) == 0 && x < |y|
  {
    now == if Passed(x, j, half) then StageAt(y, d, half, s, x) else y[x]
  }

  /** Walking on: twiddle exponents count up inside an upper half and restart after a lower one. */
  lemma NextPlace(j: nat, half: nat)
    requires half > 0
    ensures Upper(j, half) && Upper(j + 1, half) ==> (j + 1) % half == j % half + 1
    ensures !Upper(j, half) && Upper(j + 1, half) ==> (j + 1) % half == 0
    ensures !Upper(0, half)
  {
    var q, r := j / half, j % half;
    DivMod.Split(j, half);
    DivMod.Unique(0, half, 0, 0);
    if r + 1 < half {
      DivMod.Unique(j + 1, half, q, r + 1);
    } else {
      DivMod.Distribute(q, 1, half);
      DivMod.Unique(j + 1, half, q + 1, 0);
    }
  }

  /** A place of the lower half ends no butterfly. */
  lemma LowerPassesNone(n: nat, half: nat, j: nat, x: nat)
    requires half > 0 && n % (2 * half) == 0 && j < n && x < n && !Upper(j, half)
    ensures Passed(x, j + 1, half) == Passed(x, j, half)
  {
    Neighbours(n, half, x);
  }

  /** A place of the upper half ends one butterfly: its own. */
  lemma UpperPassesTwo(n: nat, half: nat, j: nat, x: nat)
    requires half > 0 && n % (2 * half) == 0 && j < n && x < n && Upper(j, half)
    ensures j >= half && !Passed(j, j, half) && !Passed(j - half, j, half)
    ensures Passed(x, j + 1, half) == (Passed(x, j, half) || x == j || x == j - half)
  {
    Neighbours(n, half, j);
    Neighbours(n, half, x);
  }

  lemma PassedNone(half: nat, x: nat)
    requires half > 0
    ensures !Passed(x, 0, half)
  {
  }

  lemma PassedAll(n: nat, half: nat, x: nat)
    requires half > 0 && n % (2 * half) == 0 && x < n
    ensures Passed(x, n, half)
  {
    Neighbours(n, half, x);
  }

  lemma TwiddleExponent(r: int, u: int, step: int)
    ensures u * (r * step) == u * step * r
  {
  }

  /** The body of the loop at a place of the upper half. */
  method ButterflyStep(a: array<Elem>, ghost y: seq<Elem>, d: nat, half: nat, ghost s: int, j: nat, e: int)
    requires a.Length == |y| && InRing(y, d) && half > 0 && |y| % (2 * half) == 0
    requires j < |y| && Upper(j, half) && e == s * (j % half)
    requires forall x :: 0 <= x < |y| ==> PlaceDone(y, a[x], d, half, s, j, x)
    modifies a
    ensures forall x :: 0 <= x < |y| ==> PlaceDone(y, a[x], d, half, s, j + 1, x)
  {
    hide Rot, Add, Sub, Upper;
    Neighbours(|y|, half, j);
    UpperPassesTwo(|y|, half, j, j);
    var neighbour := j - half;
    assert PlaceDone(y, a[j], d, half, s, j, j) && PlaceDone(y, a[neighbour], d, half, s, j, neighbour);
    a[j] := Rot(a[j], e);
    var temp := a[neighbour];
    a[neighbour] := Add(temp, a[j]);
    a[j] := Sub(temp, a[j]);
    assert a[neighbour] == StageAt(y, d, half, s, neighbour) && a[j] == StageAt(y, d, half, s, j);
    forall x | 0 <= x < |y|
      ensures PlaceDone(y, a[x], d, half, s, j + 1, x)
    {
      UpperPassesTwo(|y|, half, j, x);
      assert x != j && x != neighbour ==> PlaceDone(y, old(a[x]), d, half, s, j, x);
    }
  }

  /** One pass over the array: stage i of k, with the twiddle exponents counted by z. */
  method ButterflyStage(a: array<Elem>, d: nat, u: int, k: nat, i: nat)
    requires a.Length == Pow2(k) && i < k && InRing(a[..], d)
    modifies a
    ensures Pow2(k) % (2 * Pow2(i)) == 0
    ensures a[..] == Stage(old(a[..]), d, Pow2(i), u * Pow2(k - i - 1))
  {
    hide Stage, StageAt, Passed, Pow2;
    Pow2Divides(i + 1, k);
    Pow2Double(i + 1);
    var half, step := Pow2(i), Pow2(k - i - 1);
    ghost var y, s := a[..], u * step;
    var z := 0;
    NextPlace(0, half);
    forall x | 0 <= x < |y|
      ensures PlaceDone(y, a[x], d, half, s, 0, x)
    {
      PassedNone(half, x);
    }
    for j := 0 to a.Length
      invariant Upper(j, half) ==> z == (j % half) * step
      invariant forall x :: 0 <= x < |y| ==> PlaceDone(y, a[x], d, half, s, j, x)
    {
      NextPlace(j, half);
      if j / half % 2 == 1 {
        TwiddleExponent(j % half, u, step);
        ButterflyStep(a, y, d, half, s, j, u * z);
        DivMod.Distribute(j % half, 1, step);
        z := z + step;
      } else {
        forall x | 0 <= x < |y|
          ensures PlaceDone(y, a[x], d, half, s, j + 1, x)
        {
          LowerPassesNone(|y|, half, j, x);
          assert PlaceDone(y, a[x], d, half, s, j, x);
        }
        z := 0;
      }
    }
    forall x | 0 <= x < |y|
      ensures a[x] == StageAt(y, d, half, s, x)
    {
      PassedAll(|y|, half, x);
      assert PlaceDone(y, a[x], d, half, s, |y|, x);
    }
  }

  /** The loop over the stages. */
  method ButterflyStages(a: array<Elem>, d: nat, u: int, k: nat)
    requires a.Length == Pow2(k) && InRing(a[..], d)
    modifies a
    ensures a[..] == Stages(old(a[..]), d, u, k, k)
  {
    hide Stages, Stage, Pow2;
    ghost var y := a[..];
    NoStagesYet(y, d, u, k);
    for i := 0 to k
      invariant a[..] == Stages(y, d, u, k, i)
    {
      ButterflyStage(a, d, u, k, i);
      StagesStep(y, d, u, k, i + 1);
    }
  }

  lemma NoStagesYet(y: seq<Elem>, d: nat, u: int, k: nat)
    requires InRing(y, d) && |y| == Pow2(k)
    ensures Stages(y, d, u, k, 0) == y
  {
  }

  method Copy(from: array<Elem>, to: array<Elem>)
    requires from != to && from.Length == to.Length
    modifies to
    ensures to[..] == from[..]
  {
    for i := 0 to from.Length
      invariant to[..i] == from[..i]
    {
      to[i] := from[i];
    }
    assert to[..] == from[..];
  }

  /** The part FFT and IFFT share: reorder the source, stop unless the size is a power of
      two, copy, and run the butterfly loops on the copy. */
  method Transformed(src: array<Elem>, d: nat, u: int) returns (work: array?<Elem>)
    requires src.Length >= 1 && InRing(src[..], d) && IsRoot(d, u, src.Length)
    modifies src
    ensures src[..] == Remap(old(src[..]))
    ensures work != null <==> IsPow2(src.Length)
    ensures work != null ==> fresh(work) && work[..] == Dft(old(src[..]), d, u)
  {
    hide Remap, Stages, Dft, IsRoot;
    ghost var x := src[..];
    assert [] + x + [] == x && [] + Remap(x) + [] == Remap(x);
    var _ := FftRemap(src, 0, src.Length, [], x, []);
    var k := Log2(src.Length);
    OnlyPow2(src.Length, k);
    if src.Length != Pow2(k) {
      return null;
    }
    work := new Elem[src.Length];
    Copy(src, work);
    StagesAreDft(x, d, u, k);
    ButterflyStages(work, d, u, k);
  }

  /** FFT.  The result is false where the program exits because the size is no power of two;
      the source has been reordered by then and the destination is untouched. */
  method Fft(src: array<Elem>, dst: array<Elem>, d: nat, u: int) returns (done: bool)
    requires src.Length == dst.Length >= 1 && InRing(src[..], d) && IsRoot(d, u, src.Length)
    modifies src, dst
    ensures done <==> IsPow2(src.Length)
    ensures src != dst || !done ==> src[..] == Remap(old(src[..]))
    ensures done ==> dst[..] == Dft(old(src[..]), d, u)
    ensures !done && src != dst ==> dst[..] == old(dst[..])
  {
    hide Remap, Dft, IsRoot, IsPow2;
    var work := Transformed(src, d, u);
    if work == null {
      return false;
    }
    Copy(work, dst);
    return true;
  }

  /** IFFT: the conjugate root, and a division by the size at the end. */
  method Ifft(src: array<Elem>, dst: array<Elem>, d: nat, u: int) returns (done: bool)
    requires src.Length == dst.Length >= 1 && InRing(src[..], d) && IsRoot(d, u, src.Length)
    modifies src, dst
    ensures done <==> IsPow2(src.Length)
    ensures src != dst || !done ==> src[..] == Remap(old(src[..]))
    ensures done ==> dst[..] == InverseDft(old(src[..]), d, u)
    ensures !done && src != dst ==> dst[..] == old(dst[..])
  {
    hide Remap, Dft, IsRoot, IsPow2, Scale;
    ConjugateRoot(d, u, src.Length);
    ghost var x := src[..];
    var work := Transformed(src, d, -u);
    if work == null {
      return false;
    }
    ghost var y := work[..];
    ghost var reordered := src[..];
    for i := 0 to src.Length
      invariant dst[..i] == InverseDft(x, d, u)[..i] && work[..] == y
      invariant src != dst ==> src[..] == reordered
    {
      dst[i] := Scale(work[i], 1.0 / (src.Length as real));
    }
    return true;
  }

  /** FFT and then IFFT of its output: the input is back, for every power of two. */
  method ThereAndBack(src: array<Elem>, mid: array<Elem>, dst: array<Elem>, d: nat, u: int) returns (done: bool)
    requires src.Length == mid.Length == dst.Length >= 1 && src != mid && mid != dst && src != dst
    requires InRing(src[..], d) && IsRoot(d, u, src.Length)
    modifies src, mid, dst
    ensures done <==> IsPow2(src.Length)
    ensures done ==> dst[..] == old(src[..])
    ensures done ==> src[..] == Remap(old(src[..])) && Remap(src[..]) == old(src[..])
  {
    hide Remap, Dft, InverseDft, IsRoot;
    ghost var x := src[..];
    done := Fft(src, mid, d, u);
    if done {
      ghost var k: nat :| |x| == Pow2(k);
      InverseRestores(x, d, u, k);
      RemapTwice(x, k);
      done := Ifft(mid, dst, d, u);
    }
  }
}
