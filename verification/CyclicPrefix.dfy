/**
 Cyclic prefixes: the periodic extension of preamble and signal symbols with its window
 overlap, carried from call to call in one register a stream, and the plain prefix of data
 symbols in a flat buffer.
 */
module CyclicPrefix {
  import opened ComplexNumbers
  import opened FixedPoint
  import B = Buffers
  import DivMod

  const POINTS: nat := 128
  const OVERLAP: nat := 3

  /** The window; opposite weights add up to one, that is 2^13. */
  function Weight(i: nat): (w: nat)
    requires i < OVERLAP
    ensures 0 < w < 8192
  {
    if i == 0 then 1200 else if i == 1 then 4096 else 6992
  }

  lemma OppositeWeights(i: nat)
    requires i < OVERLAP
    ensures Weight(i) + Weight(2 - i) == 8192
  {
  }

  // ---------------------------------------------------------------------------
  // What a call produces
  // ---------------------------------------------------------------------------

  /** A preamble symbol starts 66 samples before its end and lasts 320 samples, a signal
      symbol 34 samples before its end and 160 samples. */
  datatype Kind = Preamble | Sig

  function StartOf(k: Kind): (n: nat) {
    if k == Preamble then 62 else 94
  }

  function LengthOf(k: Kind): (n: nat)
    ensures n >= OVERLAP
  {
    if k == Preamble then 320 else 160
  }

  /** Sample x of the periodic extension of a symbol. */
  function Periodic(a: seq<Complex32>, k: Kind, x: nat): (c: Complex32)
    requires |a| == POINTS
  {
    a[(StartOf(k) + x) % POINTS]
  }

  /** The extension goes on for three samples after the symbol: these overlap the next one. */
  function Tail(a: seq<Complex32>, k: Kind): (t: seq<Complex32>)
    requires |a| == POINTS
    ensures |t| == OVERLAP && forall i :: 0 <= i < OVERLAP ==> t[i] == Periodic(a, k, LengthOf(k) + i)
  {
    seq(OVERLAP, i requires 0 <= i < OVERLAP => Periodic(a, k, LengthOf(k) + i))
  }

  function BlendPart(i: nat, p: int, r: int): (b: int)
    requires i < OVERLAP
  {
    Wrap16(Wrap32(p * Weight(i) + r * Weight(2 - i)) / 8192)
  }

  /** Overlap sample i: the new symbol fades in while the one before fades out. */
  function Blend(i: nat, p: Complex32, r: Complex32): (c: Complex32)
    requires i < OVERLAP
  {
    Complex32(BlendPart(i, p.re, r.re), BlendPart(i, p.im, r.im))
  }

  function Windowed(a: seq<Complex32>, k: Kind, r: seq<Complex32>): (w: seq<Complex32>)
    requires |a| == POINTS && |r| == OVERLAP
    ensures |w| == LengthOf(k) + OVERLAP
    ensures forall x :: 0 <= x < |w| ==>
              w[x] == if x < OVERLAP then Blend(x, Periodic(a, k, x), r[x]) else Periodic(a, k, x)
  {
    seq(LengthOf(k) + OVERLAP, x requires 0 <= x < LengthOf(k) + OVERLAP =>
      if x < OVERLAP then Blend(x, Periodic(a, k, x), r[x]) else Periodic(a, k, x))
  }

  predicate Sample16(c: Complex32) {
    IsInt16(c.re) && IsInt16(c.im)
  }

  predicate Between(x: int, p: int, r: int) {
    (p <= x <= r) || (r <= x <= p)
  }

  lemma WeightedMean(p: int, r: int, w: nat, v: nat)
    requires w + v == 8192 && IsInt16(p) && IsInt16(r)
    ensures p <= r ==> p * 8192 <= p * w + r * v <= r * 8192
    ensures r <= p ==> r * 8192 <= p * w + r * v <= p * 8192
    ensures -0x1000_0000 <= p * w + r * v < 0x1000_0000
  {
    DivMod.Distribute(w, v, p);
    DivMod.Distribute(w, v, r);
    if p <= r {
      DivMod.Scale(p, r, v);
      DivMod.Scale(p, r, w);
    } else {
      DivMod.Scale(r, p, v);
      DivMod.Scale(r, p, w);
    }
  }

  lemma QuotientBetween(x: int, lo: int, hi: int)
    requires lo * 8192 <= x <= hi * 8192
    ensures lo <= x / 8192 <= hi
  {
  }

  /** No 16-bit or 32-bit value wraps, and the result lies between its two inputs. */
  lemma BlendPartBetween(i: nat, p: int, r: int)
    requires i < OVERLAP && IsInt16(p) && IsInt16(r)
    ensures BlendPart(i, p, r) == (p * Weight(i) + r * Weight(2 - i)) / 8192
    ensures Between(BlendPart(i, p, r), p, r)
  {
    hide Wrap16, Wrap32, Weight;
    OppositeWeights(i);
    WeightedMean(p, r, Weight(i), Weight(2 - i));
    var x := p * Weight(i) + r * Weight(2 - i);
    if p <= r {
      QuotientBetween(x, p, r);
    } else {
      QuotientBetween(x, r, p);
    }
    Wrap32Small(x);
    WrapSmall(x / 8192);
  }

  /** Each overlap sample lies between its neighbours, part by part; equal neighbours pass
      unchanged. */
  lemma BlendBetween(i: nat, p: Complex32, r: Complex32)
    requires i < OVERLAP && Sample16(p) && Sample16(r)
    ensures Between(Blend(i, p, r).re, p.re, r.re) && Between(Blend(i, p, r).im, p.im, r.im)
    ensures Sample16(Blend(i, p, r))
    ensures p == r ==> Blend(i, p, r) == p
  {
    hide BlendPart;
    BlendPartBetween(i, p.re, r.re);
    BlendPartBetween(i, p.im, r.im);
  }

  // ---------------------------------------------------------------------------
  // The shape of the window
  // ---------------------------------------------------------------------------

  /** The window is half a period of a squared sine in three steps: seen from the middle, a
      part that starts from zero rises to 4096 - m, 4096 and 4096 + m, where m is the square
      root of 4096 * 4096 / 2, rounded down.  So its weights are 8192 times the squared sines
      of 22.5, 45 and 67.5 degrees. */
  lemma WindowIsSquaredSine()
    ensures var m := 4096 - BlendPart(0, 8192, 0);
      && m >= 0 && 2 * m * m <= 4096 * 4096 < 2 * (m + 1) * (m + 1)
      && BlendPart(1, 8192, 0) == 4096
      && BlendPart(2, 8192, 0) == 4096 + m
  {
    hide BlendPart;
    BlendPartBetween(0, 8192, 0);
    BlendPartBetween(1, 8192, 0);
    BlendPartBetween(2, 8192, 0);
  }

  /** An overlap sample in terms of the step from the symbol before to the new one. */
  lemma BlendStep(i: nat, p: int, r: int)
    requires i < OVERLAP && IsInt16(p) && IsInt16(r)
    ensures BlendPart(i, p, r) == r + Weight(i) * (p - r) / 8192
  {
    hide BlendPart, Weight;
    BlendPartBetween(i, p, r);
    OppositeWeights(i);
    var w := Weight(i);
    StepForm(p, r, w);
    DivMod.AddMultiple(w * (p - r), r, 8192);
  }

  lemma StepForm(p: int, r: int, w: int)
    ensures p * w + r * (8192 - w) == w * (p - r) + r * 8192
  {
  }

  /** The new symbol fades in and the one before fades out: from overlap sample to overlap
      sample the output moves towards the new symbol, visibly so if they are three or more
      apart; the first sample is nearer the old one and the last nearer the new one. */
  lemma FadesIn(p: int, r: int)
    requires IsInt16(p) && IsInt16(r)
    ensures r <= p ==> r <= BlendPart(0, p, r) <= BlendPart(1, p, r) <= BlendPart(2, p, r) <= p
    ensures r >= p ==> r >= BlendPart(0, p, r) >= BlendPart(1, p, r) >= BlendPart(2, p, r) >= p
    ensures p - r >= 3 ==> BlendPart(0, p, r) < BlendPart(1, p, r) < BlendPart(2, p, r)
    ensures r - p >= 3 ==> BlendPart(0, p, r) > BlendPart(1, p, r) > BlendPart(2, p, r)
    ensures p - r >= 2 ==> BlendPart(0, p, r) - r < p - BlendPart(0, p, r)
    ensures p - r >= 2 ==> BlendPart(2, p, r) - r >= p - BlendPart(2, p, r)
    ensures r - p >= 2 ==> r - BlendPart(0, p, r) <= BlendPart(0, p, r) - p
    ensures r - p >= 2 ==> r - BlendPart(2, p, r) > BlendPart(2, p, r) - p
  {
    hide BlendPart;
    BlendStep(0, p, r);
    BlendStep(1, p, r);
    BlendStep(2, p, r);
    BlendPartBetween(0, p, r);
    BlendPartBetween(2, p, r);
  }

  // ---------------------------------------------------------------------------
  // The procedures
  // ---------------------------------------------------------------------------

  /** memcpy */
  method CopySamples(from: seq<Complex32>, to: array<Complex32>, at: nat)
    requires at + |from| <= to.Length
    modifies to
    ensures forall x :: 0 <= x < to.Length ==>
      to[x] == if at <= x < at + |from| then from[x - at] else old(to[x])
  {
    for i := 0 to |from|
      invariant forall x :: 0 <= x < to.Length ==> to[x] == if at <= x < at + i then from[x - at] else old(to[x])
    {
      to[at + i] := from[i];
    }
  }

  /** One row of the register. */
  ghost function Row(reg: array2<Complex32>, tx: nat): (r: seq<Complex32>)
    requires tx < reg.Length0
    reads reg
    ensures |r| == reg.Length1 && forall i :: 0 <= i < |r| ==> r[i] == reg[tx, i]
  {
    seq(reg.Length1, i requires 0 <= i < reg.Length1 reads reg => reg[tx, i])
  }

  /** The window loop of both procedures: fade the first three samples in, and keep the
      three samples that follow the symbol. */
  method AddWindow(out: array<Complex32>, a: seq<Complex32>, k: Kind, reg: array2<Complex32>, tx: nat)
    requires |a| == POINTS && out.Length >= LengthOf(k) + OVERLAP
    requires reg.Length1 == OVERLAP && tx < reg.Length0
    requires forall x :: 0 <= x < LengthOf(k) + OVERLAP ==> out[x] == Periodic(a, k, x)
    modifies out, reg
    ensures out[..LengthOf(k) + OVERLAP] == Windowed(a, k, old(Row(reg, tx)))
    ensures out[LengthOf(k) + OVERLAP..] == old(out[LengthOf(k) + OVERLAP..])
    ensures Row(reg, tx) == Tail(a, k)
    ensures forall u :: 0 <= u < reg.Length0 && u != tx ==> Row(reg, u) == old(Row(reg, u))
  {
    hide Periodic, Wrap16, Wrap32;
    ghost var r, n := Row(reg, tx), LengthOf(k);
    for i := 0 to OVERLAP
      invariant forall x :: 0 <= x < out.Length ==>
                  out[x] == if x < i then Blend(x, Periodic(a, k, x), r[x]) else old(out[x])
      invariant forall u, v :: 0 <= u < reg.Length0 && 0 <= v < OVERLAP ==>
        reg[u, v] == if u == tx && v < i then Periodic(a, k, n + v) else old(reg[u, v])
    {
      assert out[LengthOf(k) + i] == Periodic(a, k, n + i) && reg[tx, i] == r[i];
      out[i] := Complex32(
        Wrap16(Wrap32(out[i].re * Weight(i) + reg[tx, i].re * Weight(2 - i)) / 8192),
        Wrap16(Wrap32(out[i].im * Weight(i) + reg[tx, i].im * Weight(2 - i)) / 8192));
      reg[tx, i] := out[LengthOf(k) + i];
    }
    forall u | 0 <= u < reg.Length0 && u != tx
      ensures Row(reg, u) == old(Row(reg, u))
    {
      assert forall v :: 0 <= v < OVERLAP ==> reg[u, v] == old(reg[u, v]);
    }
  }

  method AddCpForPreamble(a: seq<Complex32>, out: array<Complex32>, reg: array2<Complex32>, tx: nat)
    requires |a| == POINTS && out.Length >= 323 && reg.Length1 == OVERLAP && tx < reg.Length0
    modifies out, reg
    ensures out[..323] == Windowed(a, Preamble, old(Row(reg, tx)))
    ensures Row(reg, tx) == Tail(a, Preamble)
    ensures forall u :: 0 <= u < reg.Length0 && u != tx ==> Row(reg, u) == old(Row(reg, u))
  {
    out[0] := a[62];
    out[1] := a[63];
    out[322] := a[0];
    CopySamples(a[64..128], out, 2);
    CopySamples(a[..128], out, 66);
    CopySamples(a[..128], out, 194);
    AddWindow(out, a, Preamble, reg, tx);
  }

  method AddCpForSig(a: seq<Complex32>, out: array<Complex32>, reg: array2<Complex32>, tx: nat)
    requires |a| == POINTS && out.Length >= 163 && reg.Length1 == OVERLAP && tx < reg.Length0
    modifies out, reg
    ensures out[..163] == Windowed(a, Sig, old(Row(reg, tx)))
    ensures Row(reg, tx) == Tail(a, Sig)
    ensures forall u :: 0 <= u < reg.Length0 && u != tx ==> Row(reg, u) == old(Row(reg, u))
  {
    out[0] := a[94];
    out[1] := a[95];
    out[162] := a[0];
    CopySamples(a[96..128], out, 2);
    CopySamples(a[..128], out, 34);
    AddWindow(out, a, Sig, reg, tx);
  }

  // ---------------------------------------------------------------------------
  // Runs of calls
  // ---------------------------------------------------------------------------

  /** One call: the kind of symbol, its 128 samples, and the stream. */
  datatype Call = Call(kind: Kind, a: seq<Complex32>, tx: nat)

  ghost predicate GoodCalls(calls: seq<Call>, streams: nat) {
    forall i :: 0 <= i < |calls| ==>
      |calls[i].a| == POINTS && calls[i].tx < streams && forall j :: 0 <= j < POINTS ==> Sample16(calls[i].a[j])
  }

  /** The register of a stream after some calls: zero, or the continuation of the latest
      symbol of that stream. */
  function RegisterAfter(calls: seq<Call>, tx: nat): (r: seq<Complex32>)
    requires forall i :: 0 <= i < |calls| ==> |calls[i].a| == POINTS
    ensures |r| == OVERLAP
  {
    if calls == [] then [ORIGIN, ORIGIN, ORIGIN]
    else if calls[|calls| - 1].tx == tx then Tail(calls[|calls| - 1].a, calls[|calls| - 1].kind)
    else RegisterAfter(calls[..|calls| - 1], tx)
  }

  /** The output of the latest of some calls. */
  function LatestOutput(calls: seq<Call>): (w: seq<Complex32>)
    requires |calls| > 0 && forall i :: 0 <= i < |calls| ==> |calls[i].a| == POINTS
  {
    var c := calls[|calls| - 1];
    Windowed(c.a, c.kind, RegisterAfter(calls[..|calls| - 1], c.tx))
  }

  /** All calls of a run from a zero register, each with an output buffer of its own. */
  method RunCalls(calls: seq<Call>, reg: array2<Complex32>) returns (outputs: seq<seq<Complex32>>)
    requires GoodCalls(calls, reg.Length0) && reg.Length1 == OVERLAP
    requires forall u :: 0 <= u < reg.Length0 ==> Row(reg, u) == [ORIGIN, ORIGIN, ORIGIN]
    modifies reg
    ensures forall u :: 0 <= u < reg.Length0 ==> Row(reg, u) == RegisterAfter(calls, u)
    ensures |outputs| == |calls| && forall i :: 0 <= i < |calls| ==> outputs[i] == LatestOutput(calls[..i + 1])
  {
    hide Windowed, Tail;
    outputs := [];
    assert calls[..0] == [];
    for i := 0 to |calls|
      invariant |outputs| == i && forall j :: 0 <= j < i ==> outputs[j] == LatestOutput(calls[..j + 1])
      invariant forall u :: 0 <= u < reg.Length0 ==> Row(reg, u) == RegisterAfter(calls[..i], u)
    {
      var c := calls[i];
      var out := new Complex32[LengthOf(c.kind) + OVERLAP];
      assert Row(reg, c.tx) == RegisterAfter(calls[..i], c.tx);
      assert calls[..i + 1][..i] == calls[..i] && calls[..i + 1][i] == c;
      if c.kind == Preamble {
        AddCpForPreamble(c.a, out, reg, c.tx);
      } else {
        AddCpForSig(c.a, out, reg, c.tx);
      }
      outputs := outputs + [out[..]];
      assert out[..] == out[..LengthOf(c.kind) + OVERLAP] == LatestOutput(calls[..i + 1]);
    }
    assert calls[..|calls|] == calls;
  }

  lemma {:induction false} RegisterFits(calls: seq<Call>, streams: nat, tx: nat, i: nat)
    requires GoodCalls(calls, streams) && i < OVERLAP
    ensures Sample16(RegisterAfter(calls, tx)[i])
    decreases |calls|
  {
    if calls != [] {
      RegisterFits(calls[..|calls| - 1], streams, tx, i);
    }
  }

  /** The symbol stands whole in its output, behind a guard interval that repeats its end:
      66 samples and two repetitions in a preamble, 34 samples and one in a signal field. */
  lemma SymbolBehindGuard(calls: seq<Call>, streams: nat, x: nat)
    requires |calls| > 0 && GoodCalls(calls, streams)
    requires OVERLAP <= x < LengthOf(calls[|calls| - 1].kind) + OVERLAP
    ensures var c, guard, w := calls[|calls| - 1], if calls[|calls| - 1].kind == Preamble then 66 else 34,
                               LatestOutput(calls);
      && w[x] == c.a[(x - guard) % POINTS]
      && (x + POINTS < LengthOf(c.kind) + OVERLAP ==> w[x + POINTS] == w[x])
  {
    hide Blend;
    var c := calls[|calls| - 1];
    var guard := if c.kind == Preamble then 66 else 34;
    DivMod.AddMultiple(x - guard, 1, POINTS);
    DivMod.AddMultiple(x + StartOf(c.kind), 1, POINTS);
  }

  /** In every run: behind the three overlap samples the output is the periodic extension of
      its symbol, and each overlap sample lies between that extension and the continuation of
      the symbol before it on the same stream (zero for the first one). */
  lemma OutputIsContinuous(calls: seq<Call>, streams: nat, x: nat)
    requires |calls| > 0 && GoodCalls(calls, streams)
    requires x < LengthOf(calls[|calls| - 1].kind) + OVERLAP
    ensures var c := calls[|calls| - 1]; var p := Periodic(c.a, c.kind, x); var w := LatestOutput(calls)[x];
      if x >= OVERLAP then w == p
      else var r := RegisterAfter(calls[..|calls| - 1], c.tx)[x];
        Between(w.re, p.re, r.re) && Between(w.im, p.im, r.im) && (p == r ==> w == p)
  {
    hide Blend, Windowed;
    var c := calls[|calls| - 1];
    if x < OVERLAP {
      RegisterFits(calls[..|calls| - 1], streams, c.tx, x);
      BlendBetween(x, Periodic(c.a, c.kind, x), RegisterAfter(calls[..|calls| - 1], c.tx)[x]);
    }
  }

  /** A preamble symbol of period 64, such as the short training field, repeated on a stream
      joins itself without a seam: the window changes nothing. */
  lemma RepetitionIsSeamless(calls: seq<Call>, streams: nat, a: seq<Complex32>, tx: nat, x: nat)
    requires GoodCalls(calls + [Call(Preamble, a, tx), Call(Preamble, a, tx)], streams)
    requires |a| == POINTS && x < LengthOf(Preamble) + OVERLAP
    requires forall j :: 0 <= j < 64 ==> a[j] == a[j + 64]
    ensures LatestOutput(calls + [Call(Preamble, a, tx), Call(Preamble, a, tx)])[x] == Periodic(a, Preamble, x)
  {
    var c := Call(Preamble, a, tx);
    var all := calls + [c, c];
    assert all[..|all| - 1] == calls + [c];
    assert all[|all| - 1] == c;
    OutputIsContinuous(all, streams, x);
    if x < OVERLAP {
      HalfPeriod(a, x);
    }
  }

  lemma HalfPeriod(a: seq<Complex32>, x: nat)
    requires |a| == POINTS && x < OVERLAP
    requires forall j :: 0 <= j < 64 ==> a[j] == a[j + 64]
    ensures Periodic(a, Preamble, 320 + x) == Periodic(a, Preamble, x)
  {
    var p, q := (62 + 320 + x) % POINTS, (62 + x) % POINTS;
    assert p == q + 64 || q == p + 64;
  }

  // ---------------------------------------------------------------------------
  // Data symbols
  // ---------------------------------------------------------------------------

  /** A data symbol behind a copy of its last cpLen samples. */
  function Prefixed(a: seq<Complex32>, cpLen: nat): (p: seq<Complex32>)
    requires cpLen <= |a|
    ensures |p| == |a| + cpLen
  {
    a[|a| - cpLen..] + a
  }

  /** The prefix makes the symbol cyclic: sample x is the sample of the symbol at x - cpLen,
      counted modulo its length, so the first cpLen samples come again at the end. */
  lemma PrefixIsCyclic(a: seq<Complex32>, cpLen: nat, x: nat)
    requires cpLen <= |a| && x < |a| + cpLen && |a| > 0
    ensures Prefixed(a, cpLen)[x] == a[(x - cpLen) % |a|]
    ensures x < cpLen ==> Prefixed(a, cpLen)[x] == Prefixed(a, cpLen)[x + |a|]
  {
    if x < cpLen {
      DivMod.Unique(x - cpLen, |a|, -1, x - cpLen + |a|);
    } else if x < |a| + cpLen {
      DivMod.Unique(x - cpLen, |a|, 0, x - cpLen);
    }
  }

  /** Where the prefixed symbol of a stream starts in the flat buffer. */
  function TileStart(length: nat, nSym: nat, tx: nat, symbol: nat): (at: nat) {
    length * nSym * tx + symbol * length
  }

  /** The tiles stand side by side from the start of the buffer, the symbols of a stream one
      after the other and the streams one after the other. */
  lemma TilesInOrder(length: nat, nSym: nat, tx: nat, symbol: nat)
    requires symbol < nSym
    ensures TileStart(length, nSym, 0, 0) == 0
    ensures var next := TileStart(length, nSym, tx, symbol) + length;
      next == if symbol + 1 < nSym then TileStart(length, nSym, tx, symbol + 1) else TileStart(length, nSym, tx + 1, 0)
  {
    DivMod.Distribute(symbol, 1, length);
    NextTiles(length, nSym, tx);
  }

  lemma NextTiles(length: nat, nSym: nat, tx: nat)
    ensures length * nSym * (tx + 1) == length * nSym * tx + nSym * length
  {
  }

  /** Different stream and symbol numbers have disjoint tiles inside the buffer. */
  lemma TilesApart(length: nat, nSym: nat, nTx: nat, tx: nat, symbol: nat, ux: nat, other: nat)
    requires tx < nTx && ux < nTx && symbol < nSym && other < nSym
    ensures TileStart(length, nSym, tx, symbol) + length <= length * nSym * nTx
    ensures (tx, symbol) != (ux, other) ==>
      TileStart(length, nSym, tx, symbol) + length <= TileStart(length, nSym, ux, other)
      || TileStart(length, nSym, ux, other) + length <= TileStart(length, nSym, tx, symbol)
  {
    TileNumber(length, nSym, tx, symbol);
    TileNumber(length, nSym, ux, other);
    var s, t := nSym * tx + symbol, nSym * ux + other;
    TileNumberBound(nSym, nTx, tx, symbol);
    DivMod.Scale(s + 1, nSym * nTx, length);
    DivMod.Distribute(s, 1, length);
    DivMod.Distribute(t, 1, length);
    DivMod.Associate(length, nSym, nTx);
    if s < t {
      DivMod.Scale(s + 1, t, length);
    } else if t < s {
      DivMod.Scale(t + 1, s, length);
    } else {
      TileNumberUnique(nSym, tx, symbol, ux, other);
    }
  }

  lemma TileNumber(length: nat, nSym: nat, tx: nat, symbol: nat)
    ensures TileStart(length, nSym, tx, symbol) == (nSym * tx + symbol) * length
  {
    DivMod.Associate(length, nSym, tx);
    DivMod.Distribute(nSym * tx, symbol, length);
  }

  lemma TileNumberBound(nSym: nat, nTx: nat, tx: nat, symbol: nat)
    requires tx < nTx && symbol < nSym
    ensures nSym * tx + symbol + 1 <= nSym * nTx
  {
    DivMod.Scale(tx + 1, nTx, nSym);
  }

  lemma TileNumberUnique(nSym: nat, tx: nat, symbol: nat, ux: nat, other: nat)
    requires symbol < nSym && other < nSym && nSym * tx + symbol == nSym * ux + other
    ensures tx == ux && symbol == other
  {
    DivMod.Unique(nSym * tx + symbol, nSym, tx, symbol);
    DivMod.Unique(nSym * ux + other, nSym, ux, other);
  }

  /** The tile of one symbol of one stream holds its prefixed samples. */
  ghost predicate TileHolds(out: seq<Complex32>, length: nat, nSym: nat, tx: nat, symbol: nat, tile: seq<Complex32>) {
    && TileStart(length, nSym, tx, symbol) + length <= |out|
    && out[TileStart(length, nSym, tx, symbol)..TileStart(length, nSym, tx, symbol) + length] == tile
  }

  method AddCpForData(a: seq<Complex32>, out: array<Complex32>, cpLen: nat, nSym: nat, symbol: nat, tx: nat)
    requires cpLen <= |a|
    requires TileStart(|a| + cpLen, nSym, tx, symbol) + |a| + cpLen <= out.Length
    modifies out
    ensures TileHolds(out[..], |a| + cpLen, nSym, tx, symbol, Prefixed(a, cpLen))
    ensures B.Outside(out[..], old(out[..]), TileStart(|a| + cpLen, nSym, tx, symbol),
              TileStart(|a| + cpLen, nSym, tx, symbol) + |a| + cpLen)
  {
    hide TileStart;
    var at := TileStart(|a| + cpLen, nSym, tx, symbol);
    CopySamples(a[|a| - cpLen..], out, at);
    CopySamples(a, out, at + cpLen);
  }

  /** All symbols of all streams, in the order of the caller's loops: every tile of the buffer
      ends up with its own symbol. */
  method AddCpForFrame(symbols: seq<seq<seq<Complex32>>>, out: array<Complex32>, dftSize: nat, cpLen: nat, nTx: nat)
    requires cpLen <= dftSize
    requires forall n :: 0 <= n < |symbols| ==>
      |symbols[n]| == nTx && forall t :: 0 <= t < nTx ==> |symbols[n][t]| == dftSize
    requires out.Length == (dftSize + cpLen) * |symbols| * nTx
    modifies out
    ensures forall n, t :: 0 <= n < |symbols| && 0 <= t < nTx ==>
      TileHolds(out[..], dftSize + cpLen, |symbols|, t, n, Prefixed(symbols[n][t], cpLen))
  {
    hide TileHolds, TileStart, Prefixed;
    var length := dftSize + cpLen;
    for symbol := 0 to |symbols|
      invariant forall n, t :: 0 <= n < symbol && 0 <= t < nTx ==>
        TileHolds(out[..], length, |symbols|, t, n, Prefixed(symbols[n][t], cpLen))
    {
      for tx := 0 to nTx
        invariant forall n, t :: 0 <= n <= symbol && 0 <= t < nTx && (n < symbol || t < tx) ==>
          TileHolds(out[..], length, |symbols|, t, n, Prefixed(symbols[n][t], cpLen))
      {
        ghost var before := out[..];
        TilesApart(length, |symbols|, nTx, tx, symbol, tx, symbol);
        AddCpForData(symbols[symbol][tx], out, cpLen, |symbols|, symbol, tx);
        forall n, t | 0 <= n <= symbol && 0 <= t < nTx && (n < symbol || t < tx)
          ensures TileHolds(out[..], length, |symbols|, t, n, Prefixed(symbols[n][t], cpLen))
        {
          TilesApart(length, |symbols|, nTx, t, n, tx, symbol);
          TileKept(before, out[..], length, |symbols|, t, n, tx, symbol, Prefixed(symbols[n][t], cpLen));
        }
      }
    }
  }

  lemma TileKept(before: seq<Complex32>, now: seq<Complex32>, length: nat, nSym: nat,
                 tx: nat, symbol: nat, ux: nat, other: nat, tile: seq<Complex32>)
    requires |now| == |before| && TileHolds(before, length, nSym, tx, symbol, tile)
    requires TileStart(length, nSym, tx, symbol) + length <= TileStart(length, nSym, ux, other)
          || TileStart(length, nSym, ux, other) + length <= TileStart(length, nSym, tx, symbol)
    requires B.Outside(now, before, TileStart(length, nSym, ux, other), TileStart(length, nSym, ux, other) + length)
    ensures TileHolds(now, length, nSym, tx, symbol, tile)
  {
    hide TileStart;
    var at := TileStart(length, nSym, tx, symbol);
    assert now[at..at + length] == before[at..at + length];
  }
}
