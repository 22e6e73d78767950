/**
 The stream parser (section 22.3.10.6 of IEEE Std 802.11ac-2013) for s bits per axis
 and any number of streams: blocks of s coded bits go to the streams in turn.
 */
module StreamParser {
  import DivMod

  /** The coded bit that is sent to place k of stream ss. */
  function Parsed(s: nat, streams: nat, ss: nat, k: nat): nat
    requires 0 < s
  {
    ss * s + streams * s * (k / s) + k % s
  }

  /** The stream and the place within it that coded bit i goes to. */
  function ParsedInverse(s: nat, streams: nat, i: nat): (p: (nat, nat))
    requires 0 < s && 0 < streams
    ensures p.0 < streams
  {
    DivMod.Split(i, s);
    DivMod.Split(i / s, streams);
    DivMod.Scale(0, (i / s) / streams, s);
    ((i / s) % streams, s * ((i / s) / streams) + i % s)
  }

  /** The block structure: coded bit i lies in block (k / s) * streams + ss. */
  lemma ParsedBlock(s: nat, streams: nat, ss: nat, k: nat)
    requires 0 < s
    ensures Parsed(s, streams, ss, k) == (k / s * streams + ss) * s + k % s
  {
    BlockForm(s, streams, ss, k / s);
  }

  lemma BlockForm(s: int, streams: int, ss: int, b: int)
    ensures ss * s + streams * s * b == (b * streams + ss) * s
  {
    DivMod.Distribute(b * streams, ss, s);
    DivMod.Associate(b, streams, s);
  }

  lemma ParsedThenInverse(s: nat, streams: nat, ss: nat, k: nat)
    requires 0 < s && ss < streams
    ensures ParsedInverse(s, streams, Parsed(s, streams, ss, k)) == (ss, k)
  {
    var i, b, t := Parsed(s, streams, ss, k), k / s, k % s;
    var q := b * streams + ss;
    ParsedBlock(s, streams, ss, k);
    DivMod.Split(k, s);
    DivMod.Unique(i, s, q, t);
    DivMod.Unique(q, streams, b, ss);
    assert ParsedInverse(s, streams, i) == (q % streams, s * (q / streams) + t);
  }

  lemma InverseThenParsed(s: nat, streams: nat, i: nat)
    requires 0 < s && 0 < streams
    ensures var p := ParsedInverse(s, streams, i); Parsed(s, streams, p.0, p.1) == i
  {
    var q := i / s;
    var p := ParsedInverse(s, streams, i);
    DivMod.Unique(p.1, s, q / streams, i % s);
    ParsedBlock(s, streams, p.0, p.1);
    DivMod.Split(q, streams);
    DivMod.Split(i, s);
  }

  /** The parser fills exactly the first m * streams blocks of coded bits with the
      first m blocks of every stream. */
  lemma ParsedRange(s: nat, streams: nat, ss: nat, k: nat, m: nat)
    requires 0 < s && ss < streams
    ensures k < m * s <==> Parsed(s, streams, ss, k) < m * streams * s
  {
    var b := k / s;
    ParsedBlock(s, streams, ss, k);
    DivMod.Split(k, s);
    BlockRange(b, k % s, m, s);
    BlockRange(b, ss, m, streams);
    BlockRange(b * streams + ss, k % s, m * streams, s);
  }

  lemma BlockRange(b: int, t: int, m: int, s: int)
    requires 0 <= t < s
    ensures b < m <==> b * s + t < m * s
  {
    if b < m {
      DivMod.Scale(b, m - 1, s);
      DivMod.Distribute(m, 1, s);
    } else {
      DivMod.Scale(m, b, s);
    }
  }

  /** Reading m blocks further in a stream is reading m * streams blocks further in
      the coded bits. */
  lemma ParsedShift(s: nat, streams: nat, ss: nat, k: nat, m: nat)
    requires 0 < s
    ensures Parsed(s, streams, ss, m * s + k) == Parsed(s, streams, ss, k) + m * streams * s
  {
    DivMod.AddMultiple(k, m, s);
    ParsedBlock(s, streams, ss, k);
    ParsedBlock(s, streams, ss, m * s + k);
    ShiftForm(k / s, m, streams, ss, s);
  }

  lemma ShiftForm(b: int, m: int, streams: int, ss: int, s: int)
    ensures ((b + m) * streams + ss) * s == (b * streams + ss) * s + m * streams * s
  {
    DivMod.Distribute(b, m, streams);
    DivMod.Distribute(b * streams + ss, m * streams, s);
  }
}
