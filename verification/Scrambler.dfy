/**
 The scrambler of GenDataAndScramble.c on bits: each output bit is the input bit plus the
 output bits seven and four places before it, so the register holds the latest outputs.
 */
module Scrambler {
  import opened PowersOfTwo

  type Bit = b: int | 0 <= b < 2

  /** The sum of three bits without carry. */
  function Parity(a: int, b: int, c: int): (p: Bit) {
    (a + b + c) % 2
  }

  const REGISTER: nat := 7
  const INITIAL: seq<Bit> := [1, 0, 1, 1, 0, 1, 0]

  /** The initial register followed by all output bits. */
  function History(d: seq<Bit>, reg: seq<Bit>): (h: seq<Bit>)
    requires |reg| == REGISTER
    ensures |h| == REGISTER + |d|
  {
    if d == [] then reg
    else
      var n := |d| - 1;
      var h := History(d[..n], reg);
      h + [Parity(d[n], h[n], h[n + 3])]
  }

  function Output(d: seq<Bit>, reg: seq<Bit>): (y: seq<Bit>)
    requires |reg| == REGISTER
    ensures |y| == |d|
  {
    History(d, reg)[REGISTER..]
  }

  /** The register after all of d. */
  function Register(d: seq<Bit>, reg: seq<Bit>): (r: seq<Bit>)
    requires |reg| == REGISTER
    ensures |r| == REGISTER
  {
    History(d, reg)[|d|..]
  }

  lemma HistoryAppend(d: seq<Bit>, b: Bit, reg: seq<Bit>)
    requires |reg| == REGISTER
    ensures var h := History(d, reg); History(d + [b], reg) == h + [Parity(b, h[|d|], h[|d| + 3])]
  {
    assert (d + [b])[..|d|] == d;
  }

  /** One step: what is put out, and the register shifted by one place. */
  lemma StepAppend(d: seq<Bit>, b: Bit, reg: seq<Bit>)
    requires |reg| == REGISTER
    ensures var r := Register(d, reg); var y := Parity(b, r[0], r[3]);
      Output(d + [b], reg) == Output(d, reg) + [y] && Register(d + [b], reg) == r[1..] + [y]
  {
    HistoryAppend(d, b, reg);
  }

  /** Scrambling in pieces, with the register handed on. */
  lemma {:induction false} OutputConcat(d: seq<Bit>, e: seq<Bit>, reg: seq<Bit>)
    requires |reg| == REGISTER
    ensures Output(d + e, reg) == Output(d, reg) + Output(e, Register(d, reg))
    ensures Register(d + e, reg) == Register(e, Register(d, reg))
    decreases |e|
  {
    hide Output, Register;
    if e == [] {
      assert d + e == d;
      NothingScrambled(Register(d, reg));
    } else {
      var n := |e| - 1;
      var f, b := e[..n], e[n];
      OutputConcat(d, f, reg);
      assert e == f + [b] && d + e == (d + f) + [b];
      StepAppend(d + f, b, reg);
      StepAppend(f, b, Register(d, reg));
    }
  }

  lemma NothingScrambled(reg: seq<Bit>)
    requires |reg| == REGISTER
    ensures Output([], reg) == [] && Register([], reg) == reg
  {
  }

  /** The input comes back from the outputs: bit i is the sum of three of them. */
  lemma {:induction false} Descramble(d: seq<Bit>, reg: seq<Bit>, i: nat)
    requires |reg| == REGISTER && i < |d|
    ensures var h := History(d, reg); d[i] == Parity(h[i + 7], h[i], h[i + 3])
    decreases |d|
  {
    hide Parity;
    var n := |d| - 1;
    var h := History(d[..n], reg);
    if i < n {
      Descramble(d[..n], reg, i);
    } else {
      ParityTwice(d[n], h[n], h[n + 3]);
    }
  }

  lemma ParityTwice(b: Bit, x: Bit, y: Bit)
    ensures Parity(Parity(b, x, y), x, y) == b
  {
  }

  /** A receiver needs no initial register: from the eighth bit on the input depends on the
      output alone. */
  lemma SelfSynchronizing(d: seq<Bit>, reg: seq<Bit>, i: nat)
    requires |reg| == REGISTER && 7 <= i < |d|
    ensures var y := Output(d, reg); d[i] == Parity(y[i], y[i - 7], y[i - 4])
  {
    Descramble(d, reg, i);
  }

  /** Different inputs have different outputs. */
  lemma OutputInjective(d: seq<Bit>, e: seq<Bit>, reg: seq<Bit>)
    requires |reg| == REGISTER && Output(d, reg) == Output(e, reg)
    ensures d == e
  {
    StartsWithRegister(d, reg);
    StartsWithRegister(e, reg);
    forall i | 0 <= i < |d|
      ensures d[i] == e[i]
    {
      Descramble(d, reg, i);
      Descramble(e, reg, i);
    }
  }

  lemma {:induction false} StartsWithRegister(d: seq<Bit>, reg: seq<Bit>)
    requires |reg| == REGISTER
    ensures History(d, reg) == reg + Output(d, reg)
    decreases |d|
  {
    if d != [] {
      StartsWithRegister(d[..|d| - 1], reg);
    }
  }

  // ---------------------------------------------------------------------------
  // Reaching a register
  // ---------------------------------------------------------------------------

  /** The input that makes the scrambler put out y. */
  function InputFor(y: seq<Bit>, reg: seq<Bit>): (d: seq<Bit>)
    requires |reg| == REGISTER
    ensures |d| == |y|
  {
    seq(|y|, i requires 0 <= i < |y| => Parity(y[i], (reg + y)[i], (reg + y)[i + 3]))
  }

  lemma {:induction false} OutputOfInput(y: seq<Bit>, reg: seq<Bit>)
    requires |reg| == REGISTER
    ensures History(InputFor(y, reg), reg) == reg + y
    decreases |y|
  {
    hide Parity;
    if y == [] {
      assert InputFor(y, reg) == [] && reg + y == reg;
    } else {
      var n := |y| - 1;
      var z := y[..n];
      OutputOfInput(z, reg);
      assert InputFor(y, reg)[..n] == InputFor(z, reg);
      ParityTwice(y[n], (reg + y)[n], (reg + y)[n + 3]);
      assert (reg + y)[n] == (reg + z)[n] && (reg + y)[n + 3] == (reg + z)[n + 3];
      assert reg + y == (reg + z) + [y[n]];
    }
  }

  function Zeros(n: nat): (z: seq<Bit>)
    ensures |z| == n && forall i :: 0 <= i < n ==> z[i] == 0
  {
    seq(n, _ => 0)
  }

  /** The register that one zero bit turns into r. */
  function StepBack(r: seq<Bit>): (q: seq<Bit>)
    requires |r| == REGISTER
    ensures |q| == REGISTER
  {
    [Parity(0, r[6], r[2])] + r[..6]
  }

  lemma StepBackIs(r: seq<Bit>)
    requires |r| == REGISTER
    ensures Register([0], StepBack(r)) == r
  {
    hide Parity;
    var q := StepBack(r);
    NothingScrambled(q);
    StepAppend([], 0, q);
    assert [] + [0] == [0 as Bit];
    ZeroParity(r[6], r[2]);
  }

  lemma ZeroParity(x: Bit, y: Bit)
    ensures Parity(0, Parity(0, x, y), y) == x
  {
  }

  /** The register that m zero bits turn into r. */
  function Before(r: seq<Bit>, m: nat): (q: seq<Bit>)
    requires |r| == REGISTER
    ensures |q| == REGISTER
  {
    if m == 0 then r else StepBack(Before(r, m - 1))
  }

  lemma {:induction false} BeforeIs(r: seq<Bit>, m: nat)
    requires |r| == REGISTER
    ensures Register(Zeros(m), Before(r, m)) == r
    decreases m
  {
    hide Register, StepBack;
    if m == 0 {
      NothingScrambled(r);
      assert Zeros(0) == [];
    } else {
      BeforeIs(r, m - 1);
      StepBackIs(Before(r, m - 1));
      assert Zeros(m) == [0] + Zeros(m - 1);
      OutputConcat([0], Zeros(m - 1), Before(r, m));
    }
  }

  // ---------------------------------------------------------------------------
  // Bits and bytes, lowest bit first
  // ---------------------------------------------------------------------------

  function Number(bits: seq<Bit>): (n: nat) {
    if bits == [] then 0 else bits[0] + 2 * Number(bits[1..])
  }

  lemma NumberFrom(r: seq<Bit>, k: nat)
    requires k < |r|
    ensures Number(r[k..]) == r[k] as int + 2 * Number(r[k + 1..])
  {
    assert r[k..][1..] == r[k + 1..];
  }

  /** GetBit: shift right by n and keep the lowest bit. */
  function GetBit(b: nat, n: nat): (bit: Bit) {
    if n == 0 then b % 2 else GetBit(b / 2, n - 1)
  }

  lemma {:induction false} GetBitOfNumber(bits: seq<Bit>, n: nat)
    ensures GetBit(Number(bits), n) == if n < |bits| then bits[n] else 0
    decreases n
  {
    if bits == [] {
      ZeroBits(n);
    } else if n > 0 {
      GetBitOfNumber(bits[1..], n - 1);
    }
  }

  lemma {:induction false} ZeroBits(n: nat)
    ensures GetBit(0, n) == 0
  {
    if n > 0 {
      ZeroBits(n - 1);
    }
  }

  function FirstBits(b: nat, n: nat): (bits: seq<Bit>)
    ensures |bits| == n && forall i :: 0 <= i < n ==> bits[i] == GetBit(b, i)
  {
    seq(n, i requires 0 <= i < n => GetBit(b, i))
  }

  lemma {:induction false} NumberBound(bits: seq<Bit>)
    ensures Number(bits) < Pow2(|bits|)
  {
    if bits != [] {
      NumberBound(bits[1..]);
    }
  }

  /** Setting the next higher bit. */
  lemma {:induction false} NumberAppend(bits: seq<Bit>, b: Bit)
    ensures Number(bits + [b]) == Number(bits) + if b == 1 then Pow2(|bits|) else 0
  {
    if bits != [] {
      NumberAppend(bits[1..], b);
      assert (bits + [b])[1..] == bits[1..] + [b];
    }
  }

  lemma {:induction false} NumberZeroIff(bits: seq<Bit>)
    ensures Number(bits) == 0 <==> bits == Zeros(|bits|)
  {
    if bits != [] {
      NumberZeroIff(bits[1..]);
      assert bits == [bits[0]] + bits[1..];
      assert Zeros(|bits|) == [0] + Zeros(|bits| - 1);
      assert Zeros(|bits|)[1..] == Zeros(|bits| - 1);
    }
  }
}
