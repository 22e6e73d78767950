/** The vector and matrix procedures of intrinsics_interface_v2.c. */
module VectorProducts {
  import opened ComplexNumbers
  import opened FixedPoint

  const WIDTH: nat := 16

  // ---------------------------------------------------------------------------
  // Lane registers
  // ---------------------------------------------------------------------------

  /** _mm256_mulhrs_epi16 */
  function MulHrsLanes(x: seq<int>, y: seq<int>): (z: seq<int>)
    requires |x| == |y|
    ensures |z| == |x| && forall i :: 0 <= i < |x| ==> z[i] == MulHrs(x[i], y[i])
  {
    seq(|x|, i requires 0 <= i < |x| => MulHrs(x[i], y[i]))
  }

  /** _mm256_sub_epi16 */
  function SubLanes(x: seq<int>, y: seq<int>): (z: seq<int>)
    requires |x| == |y|
    ensures |z| == |x| && forall i :: 0 <= i < |x| ==> z[i] == Wrap16(x[i] - y[i])
  {
    seq(|x|, i requires 0 <= i < |x| => Wrap16(x[i] - y[i]))
  }

  /** _mm256_add_epi16 */
  function AddLanes(x: seq<int>, y: seq<int>): (z: seq<int>)
    requires |x| == |y|
    ensures |z| == |x| && forall i :: 0 <= i < |x| ==> z[i] == Wrap16(x[i] + y[i])
  {
    seq(|x|, i requires 0 <= i < |x| => Wrap16(x[i] + y[i]))
  }

  function Reals(a: seq<Complex32>): (r: seq<int>)
    ensures |r| == |a| && forall i :: 0 <= i < |a| ==> r[i] == a[i].re
  {
    seq(|a|, i requires 0 <= i < |a| => a[i].re)
  }

  function Imaginaries(a: seq<Complex32>): (r: seq<int>)
    ensures |r| == |a| && forall i :: 0 <= i < |a| ==> r[i] == a[i].im
  {
    seq(|a|, i requires 0 <= i < |a| => a[i].im)
  }

  // ---------------------------------------------------------------------------
  // Products of 16 samples
  // ---------------------------------------------------------------------------

  function LaneProducts(a: seq<Complex32>, b: seq<Complex32>): (c: seq<Complex32>)
    requires |a| == |b|
    ensures |c| == |a| && forall i :: 0 <= i < |a| ==> c[i] == LaneProduct(a[i], b[i])
  {
    seq(|a|, i requires 0 <= i < |a| => LaneProduct(a[i], b[i]))
  }

  function RealLanes(a: seq<Complex32>, b: seq<Complex32>): (r: seq<int>)
    requires |a| == |b|
    ensures |r| == |a|
  {
    SubLanes(MulHrsLanes(Reals(a), Reals(b)), MulHrsLanes(Imaginaries(a), Imaginaries(b)))
  }

  function ImaginaryLanes(a: seq<Complex32>, b: seq<Complex32>): (r: seq<int>)
    requires |a| == |b|
    ensures |r| == |a|
  {
    AddLanes(MulHrsLanes(Reals(a), Imaginaries(b)), MulHrsLanes(Imaginaries(a), Reals(b)))
  }

  lemma RegistersHoldProduct(a: seq<Complex32>, b: seq<Complex32>, i: nat)
    requires i < |a| == |b|
    ensures Complex32(Wrap16(RealLanes(a, b)[i] * 4), Wrap16(ImaginaryLanes(a, b)[i] * 4)) == LaneProduct(a[i], b[i])
  {
    hide Wrap16, MulHrs;
  }

  /** Mult_complex32Vector_2 on 16 samples from place `at` of the destination. */
  method MultiplyVector(a: seq<Complex32>, b: seq<Complex32>, dest: array<Complex32>, at: nat)
    requires |a| == |b| == WIDTH && at + WIDTH <= dest.Length
    modifies dest
    ensures dest[at..at + WIDTH] == LaneProducts(a, b)
    ensures forall x :: 0 <= x < dest.Length && !(at <= x < at + WIDTH) ==> dest[x] == old(dest[x])
  {
    hide *;
    var destReal, destImag := RealLanes(a, b), ImaginaryLanes(a, b);
    ghost var products := LaneProducts(a, b);
    for i := 0 to WIDTH
      invariant dest[at..at + i] == products[..i]
      invariant forall x :: 0 <= x < dest.Length && !(at <= x < at + i) ==> dest[x] == old(dest[x])
    {
      RegistersHoldProduct(a, b, i);
      dest[at + i] := Complex32(Wrap16(destReal[i] * 4), Wrap16(destImag[i] * 4));
      assert dest[at..at + i + 1] == dest[at..at + i] + [dest[at + i]];
    }
  }

  // ---------------------------------------------------------------------------
  // Matrix times vector
  // ---------------------------------------------------------------------------

  /** Column j of a square matrix: what meets the input in output j. */
  function Column(h: seq<seq<Complex32>>, j: nat): (c: seq<Complex32>)
    requires forall i :: 0 <= i < |h| ==> |h[i]| == |h|
    requires j < |h|
    ensures |c| == |h| && forall i :: 0 <= i < |h| ==> c[i] == h[i][j]
  {
    seq(|h|, i requires 0 <= i < |h| => h[i][j])
  }

  ghost predicate Square(h: seq<seq<Complex32>>, n: nat) {
    |h| == n && forall i :: 0 <= i < n ==> |h[i]| == n
  }

  /** multForMatrix: the scalar matrix product. */
  method MultiplyMatrix(h: seq<seq<Complex32>>, x: seq<Complex32>, dest: array<Complex32>)
    requires Square(h, 4) && |x| == 4 && dest.Length >= 4
    modifies dest
    ensures forall j :: 0 <= j < 4 ==> dest[j] == ScalarDot(Column(h, j), x)
    ensures dest[4..] == old(dest[4..])
  {
    for j := 0 to 4
      invariant forall k :: 0 <= k < j ==> dest[k] == ScalarDot(Column(h, k), x)
      invariant dest[4..] == old(dest[4..])
    {
      var temp := ORIGIN;
      ghost var c := Column(h, j);
      assert c[..0] == [] && x[..0] == [];
      for i := 0 to 4
        invariant temp == ScalarDot(c[..i], x[..i])
      {
        assert c[..i + 1][..i] == c[..i] && x[..i + 1][..i] == x[..i];
        temp := Sum(temp, Product(h[i][j], x[i]));
      }
      assert c[..4] == c && x[..4] == x;
      dest[j] := temp;
    }
  }

  /** The lanes that _mm_add_epi16 adds: real and imaginary parts side by side. */
  function AddSamples(p: seq<Complex32>, q: seq<Complex32>): (r: seq<Complex32>)
    requires |p| == |q|
    ensures |r| == |p| && forall i :: 0 <= i < |p| ==> r[i] == Sum(p[i], q[i])
  {
    seq(|p|, i requires 0 <= i < |p| => Sum(p[i], q[i]))
  }

  /** Mult_Matrix_AVX2_4: one vector product of the four columns laid end to end, then the
      sums across the columns. */
  method MultiplyMatrixLanes4(h: seq<seq<Complex32>>, x: seq<Complex32>, dest: array<Complex32>)
    requires Square(h, 4) && |x| == 4 && dest.Length >= 4
    modifies dest
    ensures forall j :: 0 <= j < 4 ==> dest[j] == LaneDot(Column(h, j), x)
    ensures dest[4..] == old(dest[4..])
  {
    hide LaneProduct, Sum;
    var a := [h[0][0], h[1][0], h[2][0], h[3][0], h[0][1], h[1][1], h[2][1], h[3][1],
              h[0][2], h[1][2], h[2][2], h[3][2], h[0][3], h[1][3], h[2][3], h[3][3]];
    var b := [x[0], x[1], x[2], x[3], x[0], x[1], x[2], x[3], x[0], x[1], x[2], x[3], x[0], x[1], x[2], x[3]];
    var c := new Complex32[WIDTH];
    MultiplyVector(a, b, c, 0);
    ghost var products := LaneProducts(a, b);
    assert c[..] == c[0..0 + WIDTH] == products;
    assert forall k :: 0 <= k < WIDTH ==> c[k] == products[k];
    var temp := [c[0], c[4], c[8], c[12]];
    temp := AddSamples(temp, [c[1], c[5], c[9], c[13]]);
    temp := AddSamples(temp, [c[2], c[6], c[10], c[14]]);
    temp := AddSamples(temp, [c[3], c[7], c[11], c[15]]);
    forall j | 0 <= j < 4
      ensures temp[j] == LaneDot(Column(h, j), x)
    {
      LaneDotOfFour(Column(h, j), x);
    }
    for j := 0 to 4
      invariant forall k :: 0 <= k < j ==> dest[k] == temp[k]
      invariant dest[4..] == old(dest[4..])
    {
      dest[j] := temp[j];
    }
  }

  lemma LaneDotOfFour(h: seq<Complex32>, x: seq<Complex32>)
    requires |h| == |x| == 4
    ensures LaneDot(h, x) == Sum(Sum(Sum(LaneProduct(h[0], x[0]), LaneProduct(h[1], x[1])),
                                     LaneProduct(h[2], x[2])), LaneProduct(h[3], x[3]))
  {
    hide LaneProduct, Sum;
    LaneDotStep(h, x, 3);
    LaneDotStep(h, x, 2);
    LaneDotStep(h, x, 1);
    assert h[..4] == h && x[..4] == x;
    assert LaneDot(h[..1], x[..1]) == LaneProduct(h[0], x[0]);
  }

  lemma LaneDotStep(h: seq<Complex32>, x: seq<Complex32>, k: nat)
    requires 0 < k < |h| == |x|
    ensures LaneDot(h[..k + 1], x[..k + 1]) == Sum(LaneDot(h[..k], x[..k]), LaneProduct(h[k], x[k]))
  {
    assert h[..k + 1][..k] == h[..k] && x[..k + 1][..k] == x[..k];
  }

  /** The product that meets input l in output j. */
  ghost predicate ProductAt(c: seq<Complex32>, h: seq<seq<Complex32>>, x: seq<Complex32>, j: nat, l: nat)
    requires |c| == 4 * WIDTH && Square(h, 8) && |x| == 8 && j < 8 && l < 8
  {
    c[j * 8 + l] == LaneProduct(h[l][j], x[l])
  }

  /** The four vector products of Matrix_Mult_AVX2_8, two columns each. */
  method MultiplyColumns(h: seq<seq<Complex32>>, x: seq<Complex32>, c: array<Complex32>)
    requires Square(h, 8) && |x| == 8 && c.Length == 4 * WIDTH
    modifies c
    ensures forall j, l :: 0 <= j < 8 && 0 <= l < 8 ==> ProductAt(c[..], h, x, j, l)
  {
    hide LaneProduct;
    for i := 0 to 4
      invariant forall j, l :: 0 <= j < 2 * i && 0 <= l < 8 ==> ProductAt(c[..], h, x, j, l)
    {
      ghost var before := c[..];
      var a := seq(WIDTH, j requires 0 <= j < WIDTH => h[j % 8][i * 2 + j / 8]);
      var b := seq(WIDTH, j requires 0 <= j < WIDTH => x[j % 8]);
      MultiplyVector(a, b, c, i * WIDTH);
      forall j, l | 0 <= j < 2 * (i + 1) && 0 <= l < 8
        ensures ProductAt(c[..], h, x, j, l)
      {
        if j < 2 * i {
          assert ProductAt(before, h, x, j, l);
        } else {
          var k := (j - 2 * i) * 8 + l;
          assert k % 8 == l && k / 8 == j - 2 * i;
          assert c[i * WIDTH..i * WIDTH + WIDTH][k] == LaneProduct(a[k], b[k]);
        }
      }
    }
  }

  /** Matrix_Mult_AVX2_8: the vector products, then seven additions across the lanes. */
  method MultiplyMatrixLanes8(h: seq<seq<Complex32>>, x: seq<Complex32>, dest: array<Complex32>)
    requires Square(h, 8) && |x| == 8 && dest.Length >= 8
    modifies dest
    ensures forall j :: 0 <= j < 8 ==> dest[j] == LaneDot(Column(h, j), x)
    ensures dest[8..] == old(dest[8..])
  {
    hide LaneProduct, Sum, LaneDot;
    var c := new Complex32[4 * WIDTH];
    MultiplyColumns(h, x, c);
    ghost var products := c[..];
    var temp := seq(8, j requires 0 <= j < 8 reads c => c[j * 8]);
    forall j | 0 <= j < 8
      ensures temp[j] == LaneDot(Column(h, j)[..1], x[..1])
    {
      assert ProductAt(products, h, x, j, 0);
      LaneDotFirst(Column(h, j), x);
    }
    for l := 1 to 8
      invariant |temp| == 8 && c[..] == products
      invariant forall j :: 0 <= j < 8 ==> temp[j] == LaneDot(Column(h, j)[..l], x[..l])
    {
      var next := seq(8, j requires 0 <= j < 8 reads c => c[j * 8 + l]);
      forall j | 0 <= j < 8
        ensures Sum(temp[j], next[j]) == LaneDot(Column(h, j)[..l + 1], x[..l + 1])
      {
        assert ProductAt(products, h, x, j, l);
        LaneDotStep(Column(h, j), x, l);
      }
      temp := AddSamples(temp, next);
    }
    assert forall j :: 0 <= j < 8 ==> Column(h, j)[..8] == Column(h, j);
    assert x[..8] == x;
    for j := 0 to 8
      invariant forall k :: 0 <= k < j ==> dest[k] == temp[k]
      invariant dest[8..] == old(dest[8..])
    {
      dest[j] := temp[j];
    }
  }

  lemma LaneDotFirst(h: seq<Complex32>, x: seq<Complex32>)
    requires |h| == |x| > 0
    ensures LaneDot(h[..1], x[..1]) == LaneProduct(h[0], x[0])
  {
  }

  // ---------------------------------------------------------------------------
  // The distance between the matrix products
  // ---------------------------------------------------------------------------

  /** Output j of the two matrix products, for all matrices of any size: off by -3 n to 4 n in
      16-bit arithmetic, and within that distance where the scalar result is not at the ends
      of the 16-bit range. */
  lemma MatrixError(h: seq<seq<Complex32>>, x: seq<Complex32>, j: nat)
    requires |x| > 0 && Square(h, |x|) && j < |x|
    ensures NearModulo(LaneDot(Column(h, j), x), ScalarDot(Column(h, j), x), -3 * |x|, 4 * |x|)
    ensures var v, s := LaneDot(Column(h, j), x), ScalarDot(Column(h, j), x);
      (-32768 + 3 * |x| <= s.re < 32768 - 4 * |x| && -32768 + 3 * |x| <= s.im < 32768 - 4 * |x|)
      ==> Near(v, s, -3 * |x|, 4 * |x|)
  {
    hide LaneDot, ScalarDot, NearModulo;
    var c := Column(h, j);
    DotError(c, x);
    var v, s := LaneDot(c, x), ScalarDot(c, x);
    if -32768 + 3 * |x| <= s.re < 32768 - 4 * |x| && -32768 + 3 * |x| <= s.im < 32768 - 4 * |x| {
      NearFromModulo(v, s, -3 * |x|, 4 * |x|);
    }
  }

  /** The two outputs are -3 n to 4 n apart, for all matrices, if and only if they have left
      the 16-bit range equally often. */
  lemma MatrixErrorIff(h: seq<seq<Complex32>>, x: seq<Complex32>, j: nat)
    requires |x| > 0 && 7 * |x| < 65536 && Square(h, |x|) && j < |x|
    ensures Near(LaneDot(Column(h, j), x), ScalarDot(Column(h, j), x), -3 * |x|, 4 * |x|)
      <==> SameLaps(ExactLaneDot(Column(h, j), x), ExactScalarDot(Column(h, j), x))
  {
    DotErrorIff(Column(h, j), x);
  }

  /** Both 4 x 4 procedures on the same input. */
  method CompareMatrices4(
    h: seq<seq<Complex32>>, x: seq<Complex32>, lanes: array<Complex32>, scalar: array<Complex32>)
    requires Square(h, 4) && |x| == 4
    requires lanes.Length == scalar.Length == 4 && lanes != scalar
    modifies lanes, scalar
    ensures forall j :: 0 <= j < 4 ==> NearModulo(lanes[j], scalar[j], -12, 16)
    ensures forall j :: 0 <= j < 4 && -32756 <= scalar[j].re < 32752 && -32756 <= scalar[j].im < 32752
              ==> Near(lanes[j], scalar[j], -12, 16)
  {
    hide LaneDot, ScalarDot, NearModulo, Near;
    MultiplyMatrixLanes4(h, x, lanes);
    MultiplyMatrix(h, x, scalar);
    forall j | 0 <= j < 4
      ensures NearModulo(lanes[j], scalar[j], -12, 16)
      ensures -32756 <= scalar[j].re < 32752 && -32756 <= scalar[j].im < 32752 ==> Near(lanes[j], scalar[j], -12, 16)
    {
      MatrixError(h, x, j);
    }
  }
}
