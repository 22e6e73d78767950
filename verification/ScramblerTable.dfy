/**
 The two forms of GenDataAndScramble: bit by bit, and byte by byte through a table indexed
 with the data byte and the register.
 */
module ScramblerTable {
  import opened PowersOfTwo
  import opened Scrambler
  import F = FrameLengths

  type Byte = b: int | 0 <= b < 256

  // ---------------------------------------------------------------------------
  // What the forms put out
  // ---------------------------------------------------------------------------

  /** The bits of some bytes, lowest bit first. */
  function Bits(data: seq<Byte>): (d: seq<Bit>)
    ensures |d| == 8 * |data|
  {
    if data == [] then [] else Bits(data[..|data| - 1]) + FirstBits(data[|data| - 1], 8)
  }

  /** Byte i of the bitwise form: bit j is put out only if 8 * i + j is below the number of
      valid bits, and stays zero otherwise. */
  function ByteOut(data: seq<Byte>, valid: nat, i: nat): (b: nat)
    requires i < |data|
  {
    var n := ValidIn(valid, i);
    Number(Output(FirstBits(data[i], n), RegisterAt(data, valid, i)))
  }

  /** The service field, the data bytes, and padding. */
  function Padded(databits: seq<Byte>, scrLength: nat): (data: seq<Byte>)
    requires |databits| + 2 <= scrLength
    ensures |data| == scrLength
  {
    seq(scrLength, i requires 0 <= i < scrLength =>
      if 2 <= i < |databits| + 2 then databits[i - 2] else 0)
  }

  /** How many bits of byte i are valid. */
  function ValidIn(valid: nat, i: nat): (n: nat)
    ensures n <= 8
  {
    if 8 * (i + 1) <= valid then 8 else if valid <= 8 * i then 0 else valid - 8 * i
  }

  /** The register in front of byte i. */
  function RegisterAt(data: seq<Byte>, valid: nat, i: nat): (r: seq<Bit>)
    requires i <= |data|
    ensures |r| == REGISTER
  {
    if i == 0 then INITIAL
    else Register(FirstBits(data[i - 1], ValidIn(valid, i - 1)), RegisterAt(data, valid, i - 1))
  }

  /** Byte i of the table form: behind the whole bytes every byte is treated as if it were the
      last, incomplete one. */
  function TableByteOut(data: seq<Byte>, valid: nat, i: nat): (b: nat)
    requires i < |data|
  {
    if 8 * (i + 1) <= valid then ByteOut(data, valid, i)
    else Number(Output(FirstBits(data[i], valid % 8), RegisterAt(data, valid, valid / 8)))
  }

  // ---------------------------------------------------------------------------
  // When the two forms agree
  // ---------------------------------------------------------------------------

  lemma BehindTheEnd(data: seq<Byte>, valid: nat, i: nat)
    requires valid / 8 < i < |data|
    ensures ByteOut(data, valid, i) == 0
  {
    NothingScrambled(RegisterAt(data, valid, i));
    assert FirstBits(data[i], 0) == [];
  }

  lemma AtTheEnd(data: seq<Byte>, valid: nat, i: nat)
    requires i == valid / 8 < |data|
    ensures ByteOut(data, valid, i) == TableByteOut(data, valid, i)
  {
    assert ValidIn(valid, i) == valid % 8;
  }

  /** With no more than one byte behind the whole ones, or no bits left over, the table form
      is the bitwise form. */
  lemma TableAgrees(data: seq<Byte>, valid: nat, i: nat)
    requires i < |data| && (valid % 8 == 0 || |data| <= valid / 8 + 1)
    ensures TableByteOut(data, valid, i) == ByteOut(data, valid, i)
  {
    hide ByteOut, RegisterAt;
    if 8 * (i + 1) > valid {
      if i == valid / 8 {
        AtTheEnd(data, valid, i);
      } else {
        BehindTheEnd(data, valid, i);
        NothingScrambled(RegisterAt(data, valid, valid / 8));
        assert FirstBits(data[i], 0) == [];
      }
    }
  }

  /** A register whose next output on a zero bit is one. */
  const LOUD: seq<Bit> := [1, 0, 0, 0, 0, 0, 0]

  /** Data after which the scrambler stands at LOUD behind the whole bytes: the last data byte
      leads to the register that the zero bytes behind it turn into LOUD. */
  function Exhibit(n: nat, valid: nat): (databits: seq<Byte>)
    requires n >= 1 && 8 * (n + 2) <= valid
    ensures |databits| == n
  {
    seq(n - 1, _ => 0) + [LastData(n, valid)]
  }

  /** The last byte of that data. */
  function LastData(n: nat, valid: nat): Byte
    requires n >= 1 && 8 * (n + 2) <= valid
  {
    ByteTo(Before(LOUD, 8 * (valid / 8 - (n + 2))), RegisterAt(ZeroBuffer(n + 1), valid, n + 1))
  }

  function ZeroBuffer(len: nat): (data: seq<Byte>)
    ensures |data| == len
  {
    seq(len, _ => 0)
  }

  /** The data byte that leads from one register to another. */
  function ByteTo(goal: seq<Bit>, reg: seq<Bit>): (b: Byte)
    requires |goal| == |reg| == REGISTER
  {
    NumberBound(InputFor([0] + goal, reg));
    assert Pow2(8) == 256;
    Number(InputFor([0] + goal, reg))
  }

  lemma ByteToIs(goal: seq<Bit>, reg: seq<Bit>)
    requires |goal| == |reg| == REGISTER
    ensures Register(FirstBits(ByteTo(goal, reg), 8), reg) == goal
  {
    var d := InputFor([0] + goal, reg);
    forall i | 0 <= i < 8
      ensures FirstBits(ByteTo(goal, reg), 8)[i] == d[i]
    {
      GetBitOfNumber(d, i);
    }
    assert FirstBits(ByteTo(goal, reg), 8) == d;
    OutputOfInput([0] + goal, reg);
  }

  lemma {:induction false} RegisterFromPrefix(p: seq<Byte>, q: seq<Byte>, valid: nat, i: nat)
    requires i <= |p| && i <= |q| && p[..i] == q[..i]
    ensures RegisterAt(p, valid, i) == RegisterAt(q, valid, i)
    decreases i
  {
    hide Register;
    if i > 0 {
      assert p[..i][..i - 1] == p[..i - 1] && q[..i][..i - 1] == q[..i - 1];
      assert p[i - 1] == p[..i][i - 1] == q[..i][i - 1] == q[i - 1];
      RegisterFromPrefix(p, q, valid, i - 1);
    }
  }

  lemma NextRegister(data: seq<Byte>, valid: nat, i: nat)
    requires i < |data|
    ensures RegisterAt(data, valid, i + 1)
      == Register(FirstBits(data[i], ValidIn(valid, i)), RegisterAt(data, valid, i))
  {
  }

  /** The register after m zero bytes. */
  lemma {:induction false} ZeroBytes(data: seq<Byte>, valid: nat, i: nat, m: nat)
    requires i + m <= |data| && 8 * (i + m) <= valid && forall k :: i <= k < i + m ==> data[k] == 0
    ensures RegisterAt(data, valid, i + m) == Register(Zeros(8 * m), RegisterAt(data, valid, i))
    decreases m
  {
    hide Register, RegisterAt;
    var r := RegisterAt(data, valid, i);
    if m == 0 {
      NothingScrambled(r);
      assert Zeros(0) == [];
    } else {
      ZeroBytes(data, valid, i, m - 1);
      NextRegister(data, valid, i + m - 1);
      ZeroByte();
      assert Zeros(8 * m) == Zeros(8 * (m - 1)) + Zeros(8);
      OutputConcat(Zeros(8 * (m - 1)), Zeros(8), r);
    }
  }

  lemma ZeroByte()
    ensures forall n :: FirstBits(0, n) == Zeros(n)
  {
    forall n
      ensures FirstBits(0, n) == Zeros(n)
    {
      ZeroFirstBits(n);
    }
  }

  lemma ZeroFirstBits(n: nat)
    ensures FirstBits(0, n) == Zeros(n)
  {
    forall i | 0 <= i < n
      ensures FirstBits(0, n)[i] == 0
    {
      ZeroBits(i);
    }
  }

  /** The last data byte of the exhibit, at its place in the buffer. */
  lemma ExhibitBytes(n: nat, len: nat, valid: nat)
    requires n >= 1 && 8 * (n + 2) <= valid && n + 2 <= len
    ensures var data := Padded(Exhibit(n, valid), len);
      && data[..n + 1] == ZeroBuffer(n + 1)
      && data[n + 1] == LastData(n, valid)
      && forall k :: n + 2 <= k < len ==> data[k] == 0
  {
    hide LastData;
  }

  lemma ExhibitIsLoud(n: nat, len: nat, valid: nat)
    requires n >= 1 && 8 * (n + 2) <= valid && valid / 8 < len
    ensures RegisterAt(Padded(Exhibit(n, valid), len), valid, valid / 8) == LOUD
  {
    hide Register, RegisterAt, ByteTo, Before, Exhibit, Padded, FirstBits, ZeroBuffer;
    var data, m := Padded(Exhibit(n, valid), len), valid / 8 - (n + 2);
    ExhibitBytes(n, len, valid);
    RegisterFromPrefix(data, ZeroBuffer(n + 1), valid, n + 1);
    NextRegister(data, valid, n + 1);
    ByteToIs(Before(LOUD, 8 * m), RegisterAt(ZeroBuffer(n + 1), valid, n + 1));
    ZeroBytes(data, valid, n + 2, m);
    BeforeIs(LOUD, 8 * m);
  }

  /** With more bytes than that, and at least one byte of data, some data makes the last byte
      of the two programs' outputs differ. */
  lemma TableDiffers(n: nat, len: nat, valid: nat)
    requires n >= 1 && 8 * (n + 2) <= valid && valid % 8 != 0 && len > valid / 8 + 1
    ensures var data := Padded(Exhibit(n, valid), len);
      TableByteOut(data, valid, len - 1) != ByteOut(data, valid, len - 1)
  {
    hide ByteOut, Exhibit, RegisterAt;
    var data, last := Padded(Exhibit(n, valid), len), len - 1;
    ExhibitIsLoud(n, len, valid);
    BehindTheEnd(data, valid, last);
    ZeroFirstBits(valid % 8);
    var d := FirstBits(data[last], valid % 8);
    FirstOutput(d, LOUD);
    assert Output(d, LOUD)[0] == 1;
    assert Number(Output(d, LOUD)) >= 1;
  }

  lemma {:induction false} FirstOutput(d: seq<Bit>, r: seq<Bit>)
    requires |r| == REGISTER && |d| > 0
    ensures Output(d, r)[0] == Parity(d[0], r[0], r[3])
    decreases |d|
  {
    hide Parity;
    var n := |d| - 1;
    assert d == d[..n] + [d[n]];
    StepAppend(d[..n], d[n], r);
    if n == 0 {
      NothingScrambled(r);
      assert d[..0] == [];
    } else {
      FirstOutput(d[..n], r);
    }
  }

  /** The scrambler, fed with zeros only, puts out nothing but zeros in the incomplete byte. */
  ghost predicate QuietEnd(valid: nat) {
    Output(Zeros(valid % 8), Register(Zeros(8 * (valid / 8)), INITIAL)) == Zeros(valid % 8)
  }

  /** The output bytes behind the last valid bit, for a frame without data. */
  lemma EmptyFrame(len: nat, valid: nat, i: nat)
    requires 2 <= len && valid / 8 < i < len
    ensures TableByteOut(Padded([], len), valid, i) == 0 <==> QuietEnd(valid)
  {
    hide Output, Register, RegisterAt;
    var data := Padded([], len);
    ZeroBytes(data, valid, 0, valid / 8);
    StartsAtInitial(data, valid);
    ZeroFirstBits(valid % 8);
    NumberZeroIff(Output(Zeros(valid % 8), Register(Zeros(8 * (valid / 8)), INITIAL)));
  }

  lemma StartsAtInitial(data: seq<Byte>, valid: nat)
    ensures RegisterAt(data, valid, 0) == INITIAL
  {
  }

  /** The forms agree on all frames of n data bytes exactly when no bit is left over, or the
      buffer ends with the byte that holds the last bit, or there is no data at all and the
      scrambled zeros happen to end in zeros. */
  lemma TableRightIff(n: nat, len: nat, valid: nat)
    requires n + 2 <= len && 8 * (n + 2) <= valid
    ensures (forall databits: seq<Byte>, i | |databits| == n && 0 <= i < len ::
               TableByteOut(Padded(databits, len), valid, i) == ByteOut(Padded(databits, len), valid, i))
      <==> valid % 8 == 0 || len <= valid / 8 + 1 || (n == 0 && QuietEnd(valid))
  {
    hide TableByteOut, ByteOut, Padded, QuietEnd, Exhibit;
    if valid % 8 == 0 || len <= valid / 8 + 1 {
      forall databits: seq<Byte>, i | |databits| == n && 0 <= i < len
        ensures TableByteOut(Padded(databits, len), valid, i) == ByteOut(Padded(databits, len), valid, i)
      {
        TableAgrees(Padded(databits, len), valid, i);
      }
    } else if n > 0 {
      TableDiffers(n, len, valid);
    } else {
      EmptyFrameRightIff(len, valid);
    }
  }

  lemma EmptyFrameRightIff(len: nat, valid: nat)
    requires 2 <= len && valid % 8 != 0 && len > valid / 8 + 1
    ensures (forall databits: seq<Byte>, i | |databits| == 0 && 0 <= i < len ::
               TableByteOut(Padded(databits, len), valid, i) == ByteOut(Padded(databits, len), valid, i))
      <==> QuietEnd(valid)
  {
    hide TableByteOut, ByteOut, Padded, QuietEnd;
    EmptyFrame(len, valid, len - 1);
    BehindTheEnd(Padded([], len), valid, len - 1);
    if QuietEnd(valid) {
      forall databits: seq<Byte>, i | |databits| == 0 && 0 <= i < len
        ensures TableByteOut(Padded(databits, len), valid, i) == ByteOut(Padded(databits, len), valid, i)
      {
        assert databits == [];
        if i < valid / 8 {
          WholeBytesAgree(Padded([], len), valid, i);
        } else if i == valid / 8 {
          AtTheEnd(Padded([], len), valid, i);
        } else {
          EmptyFrame(len, valid, i);
          BehindTheEnd(Padded([], len), valid, i);
        }
      }
    } else {
      var none: seq<Byte> := [];
      assert TableByteOut(Padded(none, len), valid, len - 1) != ByteOut(Padded(none, len), valid, len - 1);
    }
  }

  lemma WholeBytesAgree(data: seq<Byte>, valid: nat, i: nat)
    requires i < |data| && i < valid / 8
    ensures TableByteOut(data, valid, i) == ByteOut(data, valid, i)
  {
  }

  // ---------------------------------------------------------------------------
  // The bytes are the pieces of one scrambled bit string
  // ---------------------------------------------------------------------------

  lemma {:induction false} RegisterAtIs(data: seq<Byte>, valid: nat, i: nat)
    requires i <= |data| && 8 * i <= valid
    ensures RegisterAt(data, valid, i) == Register(Bits(data[..i]), INITIAL)
    decreases i
  {
    hide Register;
    if i == 0 {
      NothingScrambled(INITIAL);
    } else {
      RegisterAtIs(data, valid, i - 1);
      assert data[..i][..i - 1] == data[..i - 1];
      OutputConcat(Bits(data[..i - 1]), FirstBits(data[i - 1], 8), INITIAL);
    }
  }

  /** The bits that the bytes put out are the scrambled bits of the whole input. */
  lemma {:induction false} BytesAreOutput(data: seq<Byte>, valid: nat, i: nat)
    requires i <= |data| && 8 * i <= valid
    ensures Output(Bits(data[..i]), INITIAL) == OutBits(data, valid, i)
    decreases i
  {
    hide Output, ByteOut;
    if i == 0 {
      NothingScrambled(INITIAL);
    } else {
      BytesAreOutput(data, valid, i - 1);
      RegisterAtIs(data, valid, i - 1);
      assert data[..i][..i - 1] == data[..i - 1];
      OutputConcat(Bits(data[..i - 1]), FirstBits(data[i - 1], 8), INITIAL);
      WholeByte(data, valid, i - 1);
    }
  }

  /** The bits of the first i output bytes. */
  function OutBits(data: seq<Byte>, valid: nat, i: nat): (bits: seq<Bit>)
    requires i <= |data|
    ensures |bits| == 8 * i
  {
    if i == 0 then [] else OutBits(data, valid, i - 1) + FirstBits(ByteOut(data, valid, i - 1), 8)
  }

  lemma WholeByte(data: seq<Byte>, valid: nat, i: nat)
    requires i < |data| && 8 * (i + 1) <= valid
    ensures FirstBits(ByteOut(data, valid, i), 8) == Output(FirstBits(data[i], 8), RegisterAt(data, valid, i))
  {
    hide Output, RegisterAt;
    var y := Output(FirstBits(data[i], 8), RegisterAt(data, valid, i));
    forall n | 0 <= n < 8
      ensures FirstBits(ByteOut(data, valid, i), 8)[n] == y[n]
    {
      GetBitOfNumber(y, n);
    }
  }

  lemma {:induction false} BitsAt(data: seq<Byte>, b: nat)
    requires b < 8 * |data|
    ensures Bits(data)[b] == GetBit(data[b / 8], b % 8)
    decreases |data|
  {
    hide GetBit;
    var n := |data| - 1;
    if b < 8 * n {
      BitsAt(data[..n], b);
    } else {
      assert b / 8 == n;
    }
  }

  /** Bit b of the output bytes, the lowest bit of each byte first. */
  function BitOut(data: seq<Byte>, valid: nat, b: nat): (bit: Bit)
    requires b < 8 * |data|
  {
    GetBit(ByteOut(data, valid, b / 8), b % 8)
  }

  lemma {:induction false} OutBitsAt(data: seq<Byte>, valid: nat, n: nat, b: nat)
    requires n <= |data| && b < 8 * n
    ensures OutBits(data, valid, n)[b] == BitOut(data, valid, b)
    decreases n
  {
    hide GetBit, ByteOut;
    if b < 8 * (n - 1) {
      OutBitsAt(data, valid, n - 1, b);
    } else {
      assert b / 8 == n - 1;
    }
  }

  /** With the initial register the service field, two bytes of zeros, comes out as the bytes
      168 and 190 in front of every frame. */
  lemma FrameStartsWith(databits: seq<Byte>, len: nat, valid: nat)
    requires |databits| + 2 <= len && valid >= 16
    ensures ByteOut(Padded(databits, len), valid, 0) == 168 && ByteOut(Padded(databits, len), valid, 1) == 190
  {
    hide Output, Register, Number, FirstBits;
    var data := Padded(databits, len);
    var y, z: seq<Bit> := [0, 0, 0, 1, 0, 1, 0, 1], [0, 1, 1, 1, 1, 1, 0, 1];
    ZeroFirstBits(8);
    ZerosPutOut(y, INITIAL);
    StartsAtInitial(data, valid);
    NextRegister(data, valid, 0);
    assert (INITIAL + y)[8..] == [0, 0, 1, 0, 1, 0, 1];
    ZerosPutOut(z, [0, 0, 1, 0, 1, 0, 1]);
    EightBits(y);
    EightBits(z);
  }

  /** y is what eight zeros put out, if each of its bits is the sum of the two before it that
      the taps select. */
  lemma ZerosPutOut(y: seq<Bit>, reg: seq<Bit>)
    requires |reg| == REGISTER && |y| == 8
    requires forall i :: 0 <= i < 8 ==> y[i] == Parity(0, (reg + y)[i], (reg + y)[i + 3])
    ensures Output(Zeros(8), reg) == y && Register(Zeros(8), reg) == (reg + y)[8..]
  {
    hide Parity;
    OutputOfInput(y, reg);
    forall i | 0 <= i < 8
      ensures InputFor(y, reg)[i] == Zeros(8)[i]
    {
      ParityTwice(0, (reg + y)[i], (reg + y)[i + 3]);
    }
    assert InputFor(y, reg) == Zeros(8);
    assert (reg + y)[REGISTER..] == y;
  }

  lemma EightBits(y: seq<Bit>)
    requires |y| == 8
    ensures Number(y) == (y[0] as int) + 2 * (y[1] as int) + 4 * (y[2] as int) + 8 * (y[3] as int)
                         + 16 * (y[4] as int) + 32 * (y[5] as int) + 64 * (y[6] as int) + 128 * (y[7] as int)
  {
    NumberFrom(y, 0);
    NumberFrom(y, 1);
    NumberFrom(y, 2);
    NumberFrom(y, 3);
    NumberFrom(y, 4);
    NumberFrom(y, 5);
    NumberFrom(y, 6);
    NumberFrom(y, 7);
    assert y[0..] == y && y[8..] == [];
  }

  /** A receiver gets the frame back from the output bytes alone, without the initial
      register: the bit 7 places back, the bit 4 places back and the bit itself add up to a
      zero of the service field up to bit 15, and to the bits of the data bytes, lowest
      first, behind it. */
  lemma FrameRecovered(databits: seq<Byte>, nDbps: nat, b: nat)
    requires nDbps > 0 && 7 <= b < 8 * (|databits| + 2)
    ensures var data, valid := Padded(databits, F.ScrLength(|databits|, nDbps)), F.ValidBits(|databits|, nDbps);
      Parity(BitOut(data, valid, b), BitOut(data, valid, b - 7), BitOut(data, valid, b - 4))
      == if b < 16 then 0 else GetBit(databits[b / 8 - 2], b % 8)
  {
    hide Output, BitOut, Parity, F.ScrLength, F.ValidBits;
    var n, data := |databits| + 2, Padded(databits, F.ScrLength(|databits|, nDbps));
    var valid := F.ValidBits(|databits|, nDbps);
    BytesAreOutput(data, valid, n);
    SelfSynchronizing(Bits(data[..n]), INITIAL, b);
    OutBitsAt(data, valid, n, b);
    OutBitsAt(data, valid, n, b - 7);
    OutBitsAt(data, valid, n, b - 4);
    BitsAt(data[..n], b);
    ZeroBits(b % 8);
  }

  /** Nothing is lost: with the lengths that GenInit computes, the output bytes of two
      different frames of the same length differ. */
  lemma BytesInjective(p: seq<Byte>, q: seq<Byte>, nDbps: nat, len: nat, valid: nat)
    requires |p| == |q| && nDbps > 0
    requires len == F.ScrLength(|p|, nDbps) && valid == F.ValidBits(|p|, nDbps)
    requires forall i :: 0 <= i < len ==> ByteOut(Padded(p, len), valid, i) == ByteOut(Padded(q, len), valid, i)
    ensures p == q
  {
    hide ByteOut, Output, F.ScrLength, F.ValidBits;
    F.ConfiguredLengths(|p|, nDbps);
    var n, x, y := |p| + 2, Padded(p, len), Padded(q, len);
    BytesAreOutput(x, valid, n);
    BytesAreOutput(y, valid, n);
    SameOutBits(x, y, valid, n);
    OutputInjective(Bits(x[..n]), Bits(y[..n]), INITIAL);
    BitsInjective(x[..n], y[..n]);
    forall i | 0 <= i < |p|
      ensures p[i] == q[i]
    {
      assert p[i] == x[..n][i + 2] == y[..n][i + 2] == q[i];
    }
  }

  lemma {:induction false} SameOutBits(p: seq<Byte>, q: seq<Byte>, valid: nat, n: nat)
    requires n <= |p| == |q| && forall i :: 0 <= i < n ==> ByteOut(p, valid, i) == ByteOut(q, valid, i)
    ensures OutBits(p, valid, n) == OutBits(q, valid, n)
    decreases n
  {
    hide ByteOut;
    if n > 0 {
      SameOutBits(p, q, valid, n - 1);
    }
  }

  lemma {:induction false} BitsInjective(p: seq<Byte>, q: seq<Byte>)
    requires |p| == |q| && Bits(p) == Bits(q)
    ensures p == q
    decreases |p|
  {
    if p != [] {
      var n := |p| - 1;
      assert Bits(p)[..8 * n] == Bits(p[..n]) && Bits(q)[..8 * n] == Bits(q[..n]);
      assert Bits(p)[8 * n..] == FirstBits(p[n], 8) && Bits(q)[8 * n..] == FirstBits(q[n], 8);
      BitsInjective(p[..n], q[..n]);
      ByteFromBits(p[n], 8);
      ByteFromBits(q[n], 8);
      assert p == p[..n] + [p[n]] && q == q[..n] + [q[n]];
    }
  }

  lemma {:induction false} ByteFromBits(b: nat, n: nat)
    requires b < Pow2(n)
    ensures Number(FirstBits(b, n)) == b
    decreases n
  {
    var bits := FirstBits(b, n);
    if n > 0 {
      ByteFromBits(b / 2, n - 1);
      assert bits[1..] == FirstBits(b / 2, n - 1);
      assert bits[0] == b % 2;
    }
  }
}
