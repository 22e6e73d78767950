/**
 The 64-point constellation: the value of three bits, the point of two such values,
 the lookup table indexed by all six bits, and the way back.
 */
module Constellation {
  import opened ComplexNumbers

  const LEVELS: seq<int> := [-8848, -6320, -3792, -1264, 1264, 3792, 6320, 8848]

  /** The 64 points of the array QAM8, row by row from the top: the real level grows
      along a row and the imaginary level falls from row to row. */
  function Qam8(k: nat): Complex32
    requires k < 64
  {
    Complex32(LEVELS[k % 8], LEVELS[7 - k / 8])
  }

  /** The column (or the row, from the bottom) of each three-bit value, from 1. */
  const GRAY: seq<nat> := [1, 2, 4, 3, 8, 7, 5, 6]

  /** The point that Modulation_11ax picks for a real and an imaginary value. */
  function Point(re: nat, im: nat): Complex32
    requires re < 8 && im < 8
  {
    Qam8((8 - GRAY[im]) * 8 + GRAY[re] - 1)
  }

  function LevelOf(v: nat): (level: int)
    requires v < 8
  {
    LEVELS[GRAY[v] - 1]
  }

  /** The two axes of a point are independent: each value selects its own level. */
  lemma PointLevels(re: nat, im: nat)
    requires re < 8 && im < 8
    ensures Point(re, im) == Complex32(LevelOf(re), LevelOf(im))
  {
    var row, col := 8 - GRAY[im], GRAY[re] - 1;
    assert (row * 8 + col) % 8 == col && (row * 8 + col) / 8 == row;
  }

  /** The level of three bits on either axis, said without the tables: the bits are the
      reflected Gray code of a number from 0 to 7, and the levels are the odd multiples of
      1264 in the order of these numbers. */
  function GrayLevel(a: int, b: int, c: int): (level: int)
    requires IsBit(a) && IsBit(b) && IsBit(c)
  {
    1264 * (2 * (4 * a + 2 * ((a + b) % 2) + (a + b + c) % 2) - 7)
  }

  /** The real part of a point has the level of the upper three bits and the imaginary part
      that of the lower three. */
  lemma PointIsGray(a: int, b: int, c: int, d: int, e: int, f: int)
    requires IsBit(a) && IsBit(b) && IsBit(c) && IsBit(d) && IsBit(e) && IsBit(f)
    ensures Point(Value3(a, b, c), Value3(d, e, f)) == Complex32(GrayLevel(a, b, c), GrayLevel(d, e, f))
  {
    hide Point, LevelOf, GrayLevel;
    PointLevels(Value3(a, b, c), Value3(d, e, f));
    LevelIsGray(a, b, c);
    LevelIsGray(d, e, f);
  }

  lemma LevelIsGray(a: int, b: int, c: int)
    requires IsBit(a) && IsBit(b) && IsBit(c)
    ensures LevelOf(Value3(a, b, c)) == GrayLevel(a, b, c)
  {
    hide GrayLevel;
    AllLevels();
    AllGrayLevels();
    if c == 0 {
      assert Value3(a, b, 0) == if a == 0 then (if b == 0 then 0 else 2) else (if b == 0 then 4 else 6);
    } else {
      assert Value3(a, b, 1) == if a == 0 then (if b == 0 then 1 else 3) else (if b == 0 then 5 else 7);
    }
  }

  lemma AllLevels()
    ensures LevelOf(0) == -8848 && LevelOf(1) == -6320 && LevelOf(2) == -1264 && LevelOf(3) == -3792
    ensures LevelOf(4) == 8848 && LevelOf(5) == 6320 && LevelOf(6) == 1264 && LevelOf(7) == 3792
  {
  }

  lemma AllGrayLevels()
    ensures GrayLevel(0, 0, 0) == -8848 && GrayLevel(0, 0, 1) == -6320
    ensures GrayLevel(0, 1, 0) == -1264 && GrayLevel(0, 1, 1) == -3792
    ensures GrayLevel(1, 0, 0) == 8848 && GrayLevel(1, 0, 1) == 6320
    ensures GrayLevel(1, 1, 0) == 1264 && GrayLevel(1, 1, 1) == 3792
  {
  }

  /** The grid: on each axis every odd multiple of 1264 from -7 to 7 is the level of exactly
      one value, whatever the other axis shows; value 0 has the lowest. */
  lemma GridIsFull(g: nat) returns (v: nat)
    requires 1 <= g <= 8
    ensures v < 8 && (g == 1 <==> v == 0)
    ensures forall u, other :: 0 <= u < 8 && 0 <= other < 8 ==>
      && (Point(u, other).re == 1264 * (2 * g - 9) <==> u == v)
      && (Point(other, u).im == 1264 * (2 * g - 9) <==> u == v)
  {
    hide Point, LevelOf;
    v := if g == 1 then 0 else if g == 2 then 1 else if g == 3 then 3 else if g == 4 then 2
         else if g == 5 then 6 else if g == 6 then 7 else if g == 7 then 5 else 4;
    AllLevels();
    forall u, other | 0 <= u < 8 && 0 <= other < 8
      ensures Point(u, other).re == 1264 * (2 * g - 9) <==> u == v
      ensures Point(other, u).im == 1264 * (2 * g - 9) <==> u == v
    {
      PointLevels(u, other);
      PointLevels(other, u);
      OneOfEight(u);
    }
  }

  lemma OneOfEight(v: nat)
    requires v < 8
    ensures v == 0 || v == 1 || v == 2 || v == 3 || v == 4 || v == 5 || v == 6 || v == 7
  {
  }

  /** Bit q is the only bit in which two values differ. */
  ghost predicate OnlyBit(u: nat, v: nat, q: nat)
    requires q < 3
  {
    && BitOf3(u, q) != BitOf3(v, q)
    && forall r :: 0 <= r < 3 && r != q ==> BitOf3(u, r) == BitOf3(v, r)
  }

  /** Values on neighbouring levels of an axis differ in exactly one bit. */
  lemma GrayNeighbours(u: nat, v: nat, other: nat) returns (q: nat)
    requires u < 8 && v < 8 && other < 8
    requires Point(v, other).re - Point(u, other).re == 2528 || Point(other, v).im - Point(other, u).im == 2528
    ensures q < 3 && OnlyBit(u, v, q)
  {
    hide Point, LevelOf;
    PointLevels(u, other);
    PointLevels(v, other);
    PointLevels(other, u);
    PointLevels(other, v);
    q := LevelNeighbours(u, v);
  }

  lemma LevelNeighbours(u: nat, v: nat) returns (q: nat)
    requires u < 8 && v < 8 && LevelOf(v) - LevelOf(u) == 2528
    ensures q < 3 && OnlyBit(u, v, q)
  {
    hide LevelOf;
    AllLevels();
    OneOfEight(u);
    OneOfEight(v);
    q := if u == 2 then 0 else if u == 1 || u == 7 then 1 else 2;
  }

  /** The three-bit value of a level; 8 for a number that is no level. */
  function AxisValue(level: int): (v: nat)
    ensures v <= 8
  {
    if level == -8848 then 0
    else if level == -6320 then 1
    else if level == -1264 then 2
    else if level == -3792 then 3
    else if level == 8848 then 4
    else if level == 6320 then 5
    else if level == 1264 then 6
    else if level == 3792 then 7
    else 8
  }

  /** Different values give different points: both can be read back. */
  lemma PointRoundTrip(re: nat, im: nat)
    requires re < 8 && im < 8
    ensures AxisValue(Point(re, im).re) == re && AxisValue(Point(re, im).im) == im
  {
    PointLevels(re, im);
    AxisRoundTrip(re);
    AxisRoundTrip(im);
  }

  lemma AxisRoundTrip(v: nat)
    requires v < 8
    ensures AxisValue(LevelOf(v)) == v
  {
    assert v == 0 || v == 1 || v == 2 || v == 3 || v == 4 || v == 5 || v == 6 || v == 7;
  }

  predicate IsBit(x: int) {
    x == 0 || x == 1
  }

  /** Value of three bits, most significant first. */
  function Value3(a: int, b: int, c: int): (v: nat)
    requires IsBit(a) && IsBit(b) && IsBit(c)
    ensures v < 8
  {
    4 * a + 2 * b + c
  }

  /** Bit q of a three-bit value, from the most significant. */
  function BitOf3(v: nat, q: nat): int
    requires q < 3
  {
    if q == 0 then v / 4 else if q == 1 then v / 2 % 2 else v % 2
  }

  lemma BitsRoundTrip(a: int, b: int, c: int)
    requires IsBit(a) && IsBit(b) && IsBit(c)
    ensures BitOf3(Value3(a, b, c), 0) == a
    ensures BitOf3(Value3(a, b, c), 1) == b
    ensures BitOf3(Value3(a, b, c), 2) == c
  {
    UpperBit(a, b, c);
    MiddleBit(a, b, c);
    LowerBit(a, b, c);
  }

  lemma UpperBit(a: int, b: int, c: int)
    requires IsBit(a) && IsBit(b) && IsBit(c)
    ensures (4 * a + 2 * b + c) / 4 == a
  {
  }

  lemma MiddleBit(a: int, b: int, c: int)
    requires IsBit(a) && IsBit(b) && IsBit(c)
    ensures (4 * a + 2 * b + c) / 2 % 2 == b
  {
    assert (4 * a + 2 * b + c) / 2 == 2 * a + b;
  }

  lemma LowerBit(a: int, b: int, c: int)
    requires IsBit(a) && IsBit(b) && IsBit(c)
    ensures (4 * a + 2 * b + c) % 2 == c
  {
  }

  /** Value of any number of bits, most significant first. */
  function Value(bits: seq<int>): int {
    if |bits| == 0 then 0 else 2 * Value(bits[..|bits| - 1]) + bits[|bits| - 1]
  }

  lemma ValueOfNone()
    ensures Value([]) == 0
  {
  }

  lemma ValueAppend(bits: seq<int>, b: int)
    ensures Value(bits + [b]) == 2 * Value(bits) + b
  {
    assert (bits + [b])[..|bits|] == bits;
  }

  lemma ValueOfThree(a: int, b: int, c: int)
    ensures Value([a, b, c]) == 4 * a + 2 * b + c
  {
    ValueAppend([], a);
    ValueAppend([a], b);
    ValueAppend([a, b], c);
    assert [] + [a] == [a] && [a] + [b] == [a, b] && [a, b] + [c] == [a, b, c];
  }

  lemma ValueOfSix(a: int, b: int, c: int, d: int, e: int, f: int)
    ensures Value([a, b, c, d, e, f]) == 8 * (4 * a + 2 * b + c) + (4 * d + 2 * e + f)
  {
    ValueOfThree(a, b, c);
    ValueAppend([a, b, c], d);
    ValueAppend([a, b, c, d], e);
    ValueAppend([a, b, c, d, e], f);
    assert [a, b, c] + [d] == [a, b, c, d] && [a, b, c, d] + [e] == [a, b, c, d, e];
    assert [a, b, c, d, e] + [f] == [a, b, c, d, e, f];
  }

  /** init_mapping_table for six bits per subcarrier: the upper three bits of the index
      choose the real part and the lower three the imaginary part. */
  method InitMappingTable() returns (table: array<Complex32>)
    ensures fresh(table) && table.Length == 64
    ensures forall i :: 0 <= i < 64 ==> table[i] == Point(i / 8, i % 8)
  {
    hide Qam8;
    table := new Complex32[64](_ => ORIGIN);
    for i := 0 to 64
      invariant forall k :: 0 <= k < i ==> table[k] == Point(k / 8, k % 8)
    {
      var top := i / 8 % 8;
      var after := i % 8;
      assert top == i / 8;
      var k := (8 - GRAY[after]) * 8 + GRAY[top];
      table[i] := Qam8(k - 1);
    }
  }
}
