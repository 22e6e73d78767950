/** The fast transform: recursion, butterfly stages, and why they compute the naive transform. */
module FastFourier {
  import opened NegacyclicRing
  import opened PowersOfTwo
  import opened BitReversal
  import opened Fourier
  import DivMod

  lemma {:induction false} RemapInRing(x: seq<Elem>, d: nat, k: nat)
    requires InRing(x, d) && |x| == Pow2(k)
    ensures InRing(Remap(x), d)
    decreases k
  {
    hide Remap, Evens, Odds, Pow2;
    if k == 0 {
      SingleRemap(x);
    } else {
      Pow2Double(k);
      RemapHalves(x);
      RemapInRing(Evens(x), d, k - 1);
      RemapInRing(Odds(x), d, k - 1);
    }
  }

  // ---------------------------------------------------------------------------
  // The fast transform
  // ---------------------------------------------------------------------------

  /** The recursive fast transform of an already reordered sequence. */
  function Fast(y: seq<Elem>, d: nat, s: int, k: nat): (z: seq<Elem>)
    requires InRing(y, d) && |y| == Pow2(k)
    ensures |z| == |y| && InRing(z, d)
    decreases k
  {
    if k == 0 then y
    else
      var h := Pow2(k - 1);
      Butterfly(Fast(y[..h], d, 2 * s, k - 1), Fast(y[h..], d, 2 * s, k - 1), d, s)
  }

  lemma FastHalves(p: seq<Elem>, q: seq<Elem>, d: nat, s: int, k: nat)
    requires InRing(p, d) && InRing(q, d) && |p| == |q| == Pow2(k)
    ensures InRing(p + q, d) && |p + q| == Pow2(k + 1)
    ensures Fast(p + q, d, s, k + 1) == Butterfly(Fast(p, d, 2 * s, k), Fast(q, d, 2 * s, k), d, s)
  {
    hide Butterfly;
    Pow2Double(k + 1);
    assert (p + q)[..|p|] == p && (p + q)[|p|..] == q;
  }

  /** The fast transform of the reordered sequence is the naive transform. */
  lemma {:induction false} FastIsDft(x: seq<Elem>, d: nat, s: int, k: nat)
    requires InRing(x, d) && |x| == Pow2(k) && IsRoot(d, s, Pow2(k))
    ensures InRing(Remap(x), d)
    ensures Fast(Remap(x), d, s, k) == Dft(x, d, s)
    decreases k
  {
    hide Fast, Dft, Butterfly, Remap, Evens, Odds, IsRoot, Pow2;
    RemapInRing(x, d, k);
    if k == 0 {
      SingleDft(x, d, s);
    } else {
      Pow2Double(k);
      HalfRoot(d, s, k);
      RemapHalves(x);
      FastIsDft(Evens(x), d, 2 * s, k - 1);
      FastIsDft(Odds(x), d, 2 * s, k - 1);
      ButterflyIsDft(x, d, s);
      FastHalves(Remap(Evens(x)), Remap(Odds(x)), d, s, k - 1);
    }
  }

  lemma SingleDft(x: seq<Elem>, d: nat, s: int)
    requires InRing(x, d) && |x| == Pow2(0)
    ensures Dft(x, d, s) == Remap(x) == Fast(x, d, s, 0) == x
  {
    hide DftAt;
    DftOfOne(x, d, s);
  }

  // ---------------------------------------------------------------------------
  // The butterfly stages
  // ---------------------------------------------------------------------------

  /** Is place j in the second half of its block of 2 * half places? */
  predicate Upper(j: nat, half: nat)
    requires half > 0
  {
    j / half % 2 == 1
  }

  /** One stage over the whole sequence, with neighbours `half` places apart. */
  function Stage(y: seq<Elem>, d: nat, half: nat, s: int): (z: seq<Elem>)
    requires InRing(y, d) && half > 0 && |y| % (2 * half) == 0
    ensures |z| == |y|
    ensures forall j :: 0 <= j < |y| ==> z[j] == StageAt(y, d, half, s, j)
    ensures InRing(z, d)
  {
    seq(|y|, j requires 0 <= j < |y| => StageAt(y, d, half, s, j))
  }

  function StageAt(y: seq<Elem>, d: nat, half: nat, s: int, j: nat): (z: Elem)
    requires InRing(y, d) && half > 0 && |y| % (2 * half) == 0 && j < |y|
    ensures |z| == d
  {
    Neighbours(|y|, half, j);
    if Upper(j, half) then Sub(y[j - half], Rot(y[j], s * (j % half)))
    else Add(y[j], Rot(y[j + half], s * (j % half)))
  }

  /** One half block on or back: the quotient moves by one, the remainder stays. */
  lemma HalfBlockAway(half: nat, j: nat)
    requires half > 0
    ensures (j + half) / half == j / half + 1 && (j + half) % half == j % half
    ensures (j - half) / half == j / half - 1 && (j - half) % half == j % half
    ensures Upper(j, half) ==> j >= half
  {
    DivMod.AddMultiple(j, 1, half);
    DivMod.AddMultiple(j, -1, half);
    if j < half {
      DivMod.Unique(j, half, 0, j);
    }
  }

  /** A place of a lower half is followed by the rest of its block. */
  lemma LowerHasRoom(n: nat, half: nat, j: nat)
    requires half > 0 && n % (2 * half) == 0 && j < n && !Upper(j, half)
    ensures j + half < n
  {
    hide Upper;
    var c := n / (2 * half);
    DivMod.Split(n, 2 * half);
    BlockProduct(c, half);
    DivMod.QuotientBound(j, half, 2 * c);
    LowerIsEven(j, half);
    DivMod.Split(j, half);
    DivMod.Scale(j / half + 2, 2 * c, half);
    DivMod.Distribute(j / half, 2, half);
  }

  lemma BlockProduct(c: int, half: int)
    ensures c * (2 * half) == (2 * c) * half == half * (2 * c)
  {
  }

  lemma LowerIsEven(j: nat, half: nat)
    requires half > 0 && !Upper(j, half)
    ensures j / half % 2 == 0
  {
  }

  /** Upper places have a lower neighbour half a block before them, and the other way
      round, with the same place inside the half block. */
  lemma Neighbours(n: nat, half: nat, j: nat)
    requires half > 0 && n % (2 * half) == 0 && j < n
    ensures Upper(j, half) ==> j >= half && !Upper(j - half, half) && (j - half) % half == j % half
    ensures !Upper(j, half) ==> j + half < n && Upper(j + half, half) && (j + half) % half == j % half
  {
    HalfBlockAway(half, j);
    if !Upper(j, half) {
      LowerHasRoom(n, half, j);
    }
  }

  /** Whole blocks in front change neither the role of a place nor its twiddle factor. */
  lemma UpperShift(j: nat, n: nat, half: nat)
    requires half > 0 && n % (2 * half) == 0
    ensures Upper(n + j, half) == Upper(j, half) && (n + j) % half == j % half
  {
    var c := n / (2 * half);
    DivMod.Split(n, 2 * half);
    DivMod.Associate(c, 2, half);
    assert c * (2 * half) == (2 * c) * half;
    DivMod.AddMultiple(j, 2 * c, half);
  }

  lemma Pow2Divides(i: nat, k: nat)
    requires i <= k
    ensures Pow2(k) % Pow2(i) == 0 && Pow2(k) == Pow2(k - i) * Pow2(i)
    decreases k
  {
    if i == k {
      DivMod.MultipleIsDivisible(1, Pow2(i));
    } else {
      Pow2Divides(i, k - 1);
      Pow2Double(k);
      Pow2Double(k - i);
      var a, b := Pow2(k - 1 - i), Pow2(i);
      assert 2 * (a * b) == (2 * a) * b;
      DivMod.MultipleIsDivisible(2 * a, b);
    }
  }

  /** The first i stages of a transform of 2^k places with the root x^u. */
  function Stages(y: seq<Elem>, d: nat, u: int, k: nat, i: nat): (z: seq<Elem>)
    requires InRing(y, d) && |y| == Pow2(k) && i <= k
    ensures |z| == |y| && InRing(z, d)
    decreases i
  {
    if i == 0 then y
    else
      Pow2Divides(i, k);
      Pow2Double(i);
      Stage(Stages(y, d, u, k, i - 1), d, Pow2(i - 1), u * Pow2(k - i))
  }

  lemma StageAtSplit(p: seq<Elem>, q: seq<Elem>, d: nat, half: nat, s: int, j: nat)
    requires InRing(p, d) && InRing(q, d) && half > 0 && |p| % (2 * half) == 0 && |q| % (2 * half) == 0
    requires j < |p + q|
    ensures InRing(p + q, d) && |p + q| % (2 * half) == 0
    ensures StageAt(p + q, d, half, s, j)
         == if j < |p| then StageAt(p, d, half, s, j) else StageAt(q, d, half, s, j - |p|)
  {
    hide Rot, Upper, Add, Sub;
    DivMod.ReduceInside(|p|, |q|, 2 * half);
    if j < |p| {
      Neighbours(|p|, half, j);
    } else {
      Neighbours(|q|, half, j - |p|);
      UpperShift(j - |p|, |p|, half);
    }
  }

  /** A stage acts on two runs of whole blocks separately. */
  lemma StageSplit(p: seq<Elem>, q: seq<Elem>, d: nat, half: nat, s: int)
    requires InRing(p, d) && InRing(q, d) && half > 0 && |p| % (2 * half) == 0 && |q| % (2 * half) == 0
    ensures InRing(p + q, d) && |p + q| % (2 * half) == 0
    ensures Stage(p + q, d, half, s) == Stage(p, d, half, s) + Stage(q, d, half, s)
  {
    hide Stage, StageAt;
    DivMod.ReduceInside(|p|, |q|, 2 * half);
    var z, w := Stage(p + q, d, half, s), Stage(p, d, half, s) + Stage(q, d, half, s);
    forall j | 0 <= j < |p + q|
      ensures z[j] == w[j]
    {
      StageAtSplit(p, q, d, half, s, j);
    }
  }

  lemma StagesStep(y: seq<Elem>, d: nat, u: int, k: nat, i: nat)
    requires InRing(y, d) && |y| == Pow2(k) && 0 < i <= k
    ensures Pow2(k) % (2 * Pow2(i - 1)) == 0
    ensures Stages(y, d, u, k, i) == Stage(Stages(y, d, u, k, i - 1), d, Pow2(i - 1), u * Pow2(k - i))
  {
    hide Stage;
    Pow2Divides(i, k);
    Pow2Double(i);
  }

  /** All stages but the last act on the two halves separately. */
  lemma {:induction false} StagesSplit(p: seq<Elem>, q: seq<Elem>, d: nat, u: int, k: nat, i: nat)
    requires InRing(p, d) && InRing(q, d) && |p| == |q| == Pow2(k) && i <= k
    ensures InRing(p + q, d) && |p + q| == Pow2(k + 1)
    ensures Stages(p + q, d, u, k + 1, i) == Stages(p, d, 2 * u, k, i) + Stages(q, d, 2 * u, k, i)
    decreases i
  {
    Pow2Double(k + 1);
    if i > 0 {
      hide Pow2, Stages, Stage;
      StagesSplit(p, q, d, u, k, i - 1);
      StagesStep(p, d, 2 * u, k, i);
      StagesStep(q, d, 2 * u, k, i);
      StagesStep(p + q, d, u, k + 1, i);
      Pow2Double(k + 1 - i);
      SameProduct(u, Pow2(k - i));
      StageSplit(Stages(p, d, 2 * u, k, i - 1), Stages(q, d, 2 * u, k, i - 1), d, Pow2(i - 1), u * Pow2(k + 1 - i));
    }
  }

  lemma StageAtButterfly(p: seq<Elem>, q: seq<Elem>, d: nat, half: nat, s: int, j: nat)
    requires InRing(p, d) && InRing(q, d) && |p| == |q| == half > 0 && j < 2 * half
    ensures InRing(p + q, d) && |p + q| % (2 * half) == 0
    ensures StageAt(p + q, d, half, s, j) == Butterfly(p, q, d, s)[j]
  {
    hide Rot, Add, Sub;
    DivMod.MultipleIsDivisible(1, 2 * half);
    DivMod.Unique(j, half, if j < half then 0 else 1, if j < half then j else j - half);
  }

  /** A stage over a single block is one butterfly of its halves. */
  lemma StageIsButterfly(p: seq<Elem>, q: seq<Elem>, d: nat, half: nat, s: int)
    requires InRing(p, d) && InRing(q, d) && |p| == |q| == half > 0
    ensures InRing(p + q, d) && |p + q| % (2 * half) == 0
    ensures Stage(p + q, d, half, s) == Butterfly(p, q, d, s)
  {
    hide Stage, StageAt, Butterfly;
    DivMod.MultipleIsDivisible(1, 2 * half);
    forall j | 0 <= j < |p + q|
      ensures Stage(p + q, d, half, s)[j] == Butterfly(p, q, d, s)[j]
    {
      StageAtButterfly(p, q, d, half, s, j);
    }
  }

  /** The loop over the stages computes the recursive fast transform. */
  lemma {:induction false} StagesAreFast(y: seq<Elem>, d: nat, u: int, k: nat)
    requires InRing(y, d) && |y| == Pow2(k)
    ensures Stages(y, d, u, k, k) == Fast(y, d, u, k)
    decreases k
  {
    hide Stages, Stage, Fast, Butterfly, Pow2;
    if k == 0 {
      NoStages(y, d, u);
    } else {
      var h := Pow2(k - 1);
      Pow2Double(k);
      var p, q := y[..h], y[h..];
      assert y == p + q;
      StagesAreFast(p, d, 2 * u, k - 1);
      StagesAreFast(q, d, 2 * u, k - 1);
      StagesSplit(p, q, d, u, k - 1, k - 1);
      LastStage(y, d, u, k);
      StageIsButterfly(Fast(p, d, 2 * u, k - 1), Fast(q, d, 2 * u, k - 1), d, h, u);
      FastHalves(p, q, d, u, k - 1);
    }
  }

  lemma NoStages(y: seq<Elem>, d: nat, u: int)
    requires InRing(y, d) && |y| == Pow2(0)
    ensures Stages(y, d, u, 0, 0) == y == Fast(y, d, u, 0)
  {
  }

  lemma LastStage(y: seq<Elem>, d: nat, u: int, k: nat)
    requires InRing(y, d) && |y| == Pow2(k) && k > 0
    ensures Pow2(k) % (2 * Pow2(k - 1)) == 0
    ensures Stages(y, d, u, k, k) == Stage(Stages(y, d, u, k, k - 1), d, Pow2(k - 1), u)
  {
    Pow2Double(k);
    DivMod.MultipleIsDivisible(1, Pow2(k));
    assert Pow2(k - k) == 1;
  }

  /** The butterfly loops compute the naive transform. */
  lemma StagesAreDft(x: seq<Elem>, d: nat, u: int, k: nat)
    requires InRing(x, d) && |x| == Pow2(k) && IsRoot(d, u, Pow2(k))
    ensures InRing(Remap(x), d)
    ensures Stages(Remap(x), d, u, k, k) == Dft(x, d, u)
  {
    FastIsDft(x, d, u, k);
    StagesAreFast(Remap(x), d, u, k);
  }

  // ---------------------------------------------------------------------------
  // What each stage has computed
  // ---------------------------------------------------------------------------

  /** Every m-th element, from place r on. */
  function Decimate<T>(x: seq<T>, m: nat, r: nat): (y: seq<T>)
    requires m > 0 && |x| % m == 0 && r < m
    ensures |y| == |x| / m
    ensures forall i :: 0 <= i < |y| ==> DecimatePlace(|x|, m, r, i) < |x| && y[i] == x[DecimatePlace(|x|, m, r, i)]
  {
    seq(|x| / m, i requires 0 <= i < |x| / m => x[DecimatePlace(|x|, m, r, i)])
  }

  function DecimatePlace(n: nat, m: nat, r: nat, i: nat): (p: nat)
    requires m > 0 && n % m == 0 && r < m && i < n / m
    ensures p < n
  {
    DivMod.Split(n, m);
    DivMod.Scale(i + 1, n / m, m);
    DivMod.Distribute(i, 1, m);
    DivMod.Scale(0, i, m);
    i * m + r
  }

  /** The even and odd places of a subsequence taken in larger steps. */
  lemma DecimateHalves<T>(x: seq<T>, m: nat, r: nat)
    requires |x| % 2 == 0 && m > 0 && (|x| / 2) % m == 0 && r < m
    ensures |x| % (2 * m) == 0
    ensures Decimate(Evens(x), m, r) == Decimate(x, 2 * m, 2 * r)
    ensures Decimate(Odds(x), m, r) == Decimate(x, 2 * m, 2 * r + 1)
  {
    var h := |x| / 2;
    var c := h / m;
    DivMod.Split(h, m);
    assert |x| == 2 * (c * m) == c * (2 * m);
    DivMod.MultipleIsDivisible(c, 2 * m);
    forall i | 0 <= i < c
      ensures 2 * (i * m + r) == i * (2 * m) + 2 * r
    {
    }
    var e, o := Decimate(Evens(x), m, r), Decimate(Odds(x), m, r);
    var f, g := Decimate(x, 2 * m, 2 * r), Decimate(x, 2 * m, 2 * r + 1);
    assert |e| == |f| == |o| == |g| == c;
    forall i | 0 <= i < c
      ensures e[i] == f[i] && o[i] == g[i]
    {
      assert 2 * DecimatePlace(h, m, r, i) == DecimatePlace(|x|, 2 * m, 2 * r, i);
    }
  }

  /** Block b of 2^i places. */
  function Block(z: seq<Elem>, k: nat, i: nat, b: nat): (y: seq<Elem>)
    requires |z| == Pow2(k) && i <= k && b < Pow2(k - i)
  {
    BlockBounds(k, i, b);
    z[b * Pow2(i)..(b + 1) * Pow2(i)]
  }

  lemma BlockBounds(k: nat, i: nat, b: nat)
    requires i <= k && b < Pow2(k - i)
    ensures 0 <= b * Pow2(i) <= (b + 1) * Pow2(i) <= Pow2(k)
  {
    Pow2Divides(i, k);
    DivMod.Scale(b + 1, Pow2(k - i), Pow2(i));
    DivMod.Scale(0, b, Pow2(i));
    DivMod.Scale(b, b + 1, Pow2(i));
  }

  /** Every 2^(k-i)-th element, from the place whose number is b with its bits reversed. */
  function Branch<T>(x: seq<T>, k: nat, i: nat, b: nat): (y: seq<T>)
    requires |x| == Pow2(k) && i <= k && b < Pow2(k - i)
  {
    Pow2Divides(k - i, k);
    BitReverseBound(k - i, b);
    Decimate(x, Pow2(k - i), BitReverse(k - i, b))
  }

  lemma BranchInRing(x: seq<Elem>, d: nat, k: nat, i: nat, b: nat)
    requires InRing(x, d) && |x| == Pow2(k) && i <= k && b < Pow2(k - i)
    ensures InRing(Branch(x, k, i, b), d)
  {
    hide DecimatePlace, BitReverse, Pow2;
    BitReverseBound(k - i, b);
    Pow2Divides(k - i, k);
  }

  lemma BlockOfHalves(p: seq<Elem>, q: seq<Elem>, k: nat, i: nat, b: nat, m: nat)
    requires |p| == |q| == Pow2(k) && i <= k && m == Pow2(k - i)
    requires |p + q| == Pow2(k + 1) && Pow2(k + 1 - i) == 2 * m && b < 2 * m
    ensures Block(p + q, k + 1, i, b) == if b < m then Block(p, k, i, b) else Block(q, k, i, b - m)
  {
    hide Pow2;
    Pow2Divides(i, k);
    BlockBounds(k + 1, i, b);
    var n := Pow2(i);
    if b < m {
      BlockBounds(k, i, b);
    } else {
      BlockBounds(k, i, b - m);
      DivMod.Distribute(b, m, n);
      DivMod.Distribute(b + 1, m, n);
    }
  }

  lemma BranchOfHalf<T>(x: seq<T>, half: seq<T>, k: nat, i: nat, b: nat, c: nat, m: nat)
    requires |half| == Pow2(k) && |x| == Pow2(k + 1) && i <= k && m == Pow2(k - i)
    requires |x| == 2 * |half| && half == if b < m then Evens(x) else Odds(x)
    requires c < m && c == if b < m then b else b - m
    requires b < Pow2(k + 1 - i) == 2 * m
    ensures Branch(x, k + 1, i, b) == Branch(half, k, i, c)
  {
    hide Pow2, BitReverse, Decimate, Evens, Odds;
    Pow2Divides(k - i, k);
    BitReverseBound(k - i, c);
    BitReverseTop(k - i, b >= m, c);
    DecimateHalves(x, m, BitReverse(k - i, c));
  }

  /** After i stages every aligned block of 2^i places holds the naive transform of one
      decimated subsequence of the input. */
  lemma {:induction false} StageInvariant(x: seq<Elem>, d: nat, u: int, k: nat, i: nat, b: nat)
    requires InRing(x, d) && |x| == Pow2(k) && IsRoot(d, u, Pow2(k))
    requires i <= k && b < Pow2(k - i)
    ensures InRing(Remap(x), d) && InRing(Branch(x, k, i, b), d)
    ensures Block(Stages(Remap(x), d, u, k, i), k, i, b) == Dft(Branch(x, k, i, b), d, u * Pow2(k - i))
    decreases k
  {
    hide Stages, Dft, Remap, Evens, Odds, IsRoot, Pow2, Block, Branch;
    RemapInRing(x, d, k);
    BranchInRing(x, d, k, i, b);
    if i == k {
      WholeBlock(x, d, u, k, b);
    } else {
      Pow2Double(k);
      HalfRoot(d, u, k);
      RemapHalves(x);
      var p, q, m := Remap(Evens(x)), Remap(Odds(x)), Pow2(k - 1 - i);
      RemapInRing(Evens(x), d, k - 1);
      RemapInRing(Odds(x), d, k - 1);
      StagesSplit(p, q, d, u, k - 1, i);
      Pow2Double(k - i);
      BlockOfHalves(Stages(p, d, 2 * u, k - 1, i), Stages(q, d, 2 * u, k - 1, i), k - 1, i, b, m);
      SameProduct(u, m);
      var half, c := if b < m then Evens(x) else Odds(x), if b < m then b else b - m;
      BranchOfHalf(x, half, k - 1, i, b, c, m);
      StageInvariant(half, d, 2 * u, k - 1, i, c);
    }
  }

  lemma WholeBlock(x: seq<Elem>, d: nat, u: int, k: nat, b: nat)
    requires InRing(x, d) && |x| == Pow2(k) && IsRoot(d, u, Pow2(k)) && b < Pow2(0)
    ensures InRing(Remap(x), d)
    ensures Branch(x, k, k, b) == x && u * Pow2(0) == u
    ensures Block(Stages(Remap(x), d, u, k, k), k, k, b) == Dft(x, d, u)
  {
    hide Stages, Dft, Remap, IsRoot;
    StagesAreDft(x, d, u, k);
    OnlyBlock(Stages(Remap(x), d, u, k, k), k);
    OnlyBranch(x, k);
  }

  lemma OnlyBlock(z: seq<Elem>, k: nat)
    requires |z| == Pow2(k)
    ensures Pow2(0) == 1 && Block(z, k, k, 0) == z
  {
  }

  lemma OnlyBranch<T>(x: seq<T>, k: nat)
    requires |x| == Pow2(k)
    ensures Pow2(0) == 1 && Branch(x, k, k, 0) == x
  {
    assert BitReverse(0, 0) == 0;
  }
}
