/** The Internet checksum of flowgen.c, after RFC 1071. */
module InternetChecksum {
  import DivMod

  const BASE: nat := 65535

  type Word = w: int | 0 <= w < 65536

  /** The plain sum of some words. */
  function Total(words: seq<Word>): (t: nat) {
    if words == [] then 0 else Total(words[..|words| - 1]) + words[|words| - 1]
  }

  /** The sum in ones' complement arithmetic: zero only for zero, otherwise 1 to 65535. */
  function OnesSum(t: nat): (s: nat)
    ensures s <= BASE && (s == 0 <==> t == 0)
  {
    if t == 0 then 0 else (t - 1) % BASE + 1
  }

  /** Folding the carries back in changes nothing. */
  lemma Fold(t: nat)
    ensures t >= 65536 ==> 0 < t % 65536 + t / 65536 < t
    ensures OnesSum(t % 65536 + t / 65536) == OnesSum(t)
  {
    var h, l := t / 65536, t % 65536;
    DivMod.Split(t, 65536);
    if t > 0 {
      assert t - 1 == (h + l - 1) + h * BASE;
      DivMod.AddMultiple(h + l - 1, h, BASE);
    }
  }

  /** A reduced sum can stand for the sum in a longer one. */
  lemma OnesSumAdd(t: nat, u: nat, w: nat)
    requires OnesSum(t) == OnesSum(u)
    ensures OnesSum(t + w) == OnesSum(u + w)
  {
    if t > 0 {
      var p, q := (t - 1) / BASE, (u - 1) / BASE;
      DivMod.Split(t - 1, BASE);
      DivMod.Split(u - 1, BASE);
      DivMod.AddMultiple(u + w - 1, p - q, BASE);
      DivMod.Distribute(p, q, BASE);
    }
  }

  lemma SmallOnesSum(s: nat)
    requires s <= BASE
    ensures OnesSum(s) == s
  {
    if s > 0 {
      DivMod.Unique(s - 1, BASE, 0, s - 1);
    }
  }

  /** The value that ip_sum computes. */
  function Checksum(words: seq<Word>): (c: Word) {
    BASE - OnesSum(Total(words))
  }

  /** The body of the first loop: one word added, carries folded in when the top bit is set. */
  function AddWord(sum: nat, w: Word): (next: nat) {
    var t := (sum + w) % 0x1_0000_0000;
    if t >= 0x8000_0000 then t % 65536 + t / 65536 else t
  }

  /** The 32-bit sum never overflows, and stands for the sum of the words so far. */
  lemma AddWordKeeps(sum: nat, words: seq<Word>, at: nat)
    requires sum < 0x8000_0000 && at < |words| && OnesSum(sum) == OnesSum(Total(words[..at]))
    ensures sum + words[at] < 0x1_0000_0000 && AddWord(sum, words[at]) < 0x8000_0000
    ensures OnesSum(AddWord(sum, words[at])) == OnesSum(Total(words[..at + 1]))
  {
    hide OnesSum;
    var t := sum + words[at];
    assert words[..at + 1][..at] == words[..at];
    OnesSumAdd(sum, Total(words[..at]), words[at]);
    Fold(t);
    DivMod.Unique(t, 0x1_0000_0000, 0, t);
  }

  /** ip_sum on the words of a header of hdrLen bytes; an odd byte at the end is ignored. */
  method IpSum(hdr: seq<Word>, hdrLen: int) returns (c: Word)
    requires hdrLen <= 2 * |hdr| + 1
    ensures c == Checksum(hdr[..if hdrLen < 0 then 0 else hdrLen / 2])
  {
    hide OnesSum, Total;
    var sum: nat, at: nat, left := 0, 0, hdrLen;
    NothingSums(hdr);
    while left > 1
      invariant 0 <= sum < 0x8000_0000
      invariant at <= |hdr| && left == hdrLen - 2 * at && (left >= 0 || at == 0)
      invariant OnesSum(sum) == OnesSum(Total(hdr[..at]))
    {
      AddWordKeeps(sum, hdr, at);
      sum := (sum + hdr[at]) % 0x1_0000_0000;
      at := at + 1;
      if sum >= 0x8000_0000 {
        sum := sum % 65536 + sum / 65536;
      }
      left := left - 2;
    }
    while sum / 65536 != 0
      invariant 0 <= sum < 0x8000_0000
      invariant OnesSum(sum) == OnesSum(Total(hdr[..at]))
      decreases sum
    {
      Fold(sum);
      sum := sum % 65536 + sum / 65536;
    }
    SmallOnesSum(sum);
    c := 65535 - sum;
  }

  lemma NothingSums(words: seq<Word>)
    ensures OnesSum(0) == OnesSum(Total(words[..0]))
  {
  }

  // ---------------------------------------------------------------------------
  // What the checksum is good for
  // ---------------------------------------------------------------------------

  lemma {:induction false} TotalOfUpdate(words: seq<Word>, i: nat, w: Word)
    requires i < |words|
    ensures Total(words[i := w]) == Total(words) - words[i] + w
    decreases |words|
  {
    var last := |words| - 1;
    if i == last {
      assert words[i := w][..last] == words[..last];
    } else {
      TotalOfUpdate(words[..last], i, w);
      assert words[i := w][..last] == words[..last][i := w];
    }
  }

  /** A header whose checksum field was zero while ip_sum ran, and then received its result. */
  function Sealed(words: seq<Word>, field: nat): (sealed: seq<Word>)
    requires field < |words| && words[field] == 0
    ensures |sealed| == |words|
  {
    words[field := Checksum(words)]
  }

  lemma OnesSumOfMultiple(t: nat)
    ensures OnesSum(t) == BASE <==> t > 0 && t % BASE == 0
  {
    if t > 0 {
      var q := t / BASE;
      DivMod.Split(t, BASE);
      if t % BASE == 0 {
        DivMod.Distribute(q, 1, BASE);
        DivMod.SmallMultiple(q, BASE);
        DivMod.Unique(t - 1, BASE, q - 1, BASE - 1);
      } else {
        DivMod.Unique(t - 1, BASE, q, t % BASE - 1);
      }
    }
  }

  /** The total of a sealed header is a positive multiple of 65535. */
  lemma SealedTotal(words: seq<Word>, field: nat)
    requires field < |words| && words[field] == 0
    ensures Total(Sealed(words, field)) > 0 && Total(Sealed(words, field)) % BASE == 0
  {
    var t := Total(words);
    TotalOfUpdate(words, field, Checksum(words));
    if t == 0 {
      DivMod.Unique(BASE, BASE, 1, 0);
    } else {
      var q := (t - 1) / BASE;
      DivMod.Split(t - 1, BASE);
      DivMod.Distribute(q, 1, BASE);
      DivMod.MultipleIsDivisible(q + 1, BASE);
      assert Total(Sealed(words, field)) == (q + 1) * BASE;
    }
  }

  /** For every header: with the checksum in place ip_sum of the whole header is zero. */
  lemma SealedHeaderSumsToZero(words: seq<Word>, field: nat)
    requires field < |words| && words[field] == 0
    ensures Checksum(Sealed(words, field)) == 0
  {
    SealedTotal(words, field);
    OnesSumOfMultiple(Total(Sealed(words, field)));
  }

  /** A change of one word of a sealed header goes unnoticed exactly when the word is the same
      modulo 65535, that is the same or zero and all ones exchanged, and the header does not
      become all zero. */
  lemma OneWrongWord(words: seq<Word>, field: nat, i: nat, w: Word)
    requires field < |words| && words[field] == 0 && i < |words|
    ensures Checksum(Sealed(words, field)[i := w]) == 0
      <==> Total(Sealed(words, field)[i := w]) > 0 && w % BASE == Sealed(words, field)[i] % BASE
  {
    hide Checksum, Sealed;
    SealedTotal(words, field);
    var s := Sealed(words, field);
    TotalOfUpdate(s, i, w);
    var t := Total(s[i := w]);
    OnesSumOfMultiple(t);
    ChecksumZero(s[i := w]);
    var q := Total(s) / BASE;
    DivMod.Split(Total(s), BASE);
    DivMod.AddMultiple(w - s[i], q, BASE);
    SameResidue(w, s[i]);
  }

  lemma ChecksumZero(words: seq<Word>)
    ensures Checksum(words) == 0 <==> OnesSum(Total(words)) == BASE
  {
  }

  lemma SameResidue(x: int, y: int)
    ensures (x - y) % BASE == 0 <==> x % BASE == y % BASE
  {
    DivMod.DifferenceOfResidues(y, x, BASE);
    var d := x % BASE - y % BASE;
    if d >= 0 {
      DivMod.Unique(d, BASE, 0, d);
    } else {
      DivMod.Unique(d, BASE, -1, d + BASE);
    }
  }

  // ---------------------------------------------------------------------------
  // Byte order
  // ---------------------------------------------------------------------------

  function Swap(w: Word): (v: Word) {
    w % 256 * 256 + w / 256
  }

  function SwapAll(words: seq<Word>): (v: seq<Word>)
    ensures |v| == |words| && forall i :: 0 <= i < |v| ==> v[i] == Swap(words[i])
  {
    seq(|words|, i requires 0 <= i < |words| => Swap(words[i]))
  }

  /** Swapping the bytes of a word is multiplying by 256 modulo 65535. */
  lemma SwapIsProduct(w: Word)
    ensures 256 * w == Swap(w) + (w / 256) * BASE
  {
  }

  lemma {:induction false} SwappedTotal(words: seq<Word>) returns (k: nat)
    ensures 256 * Total(words) == Total(SwapAll(words)) + k * BASE
    ensures Total(SwapAll(words)) == 0 <==> Total(words) == 0
    decreases |words|
  {
    if words == [] {
      k := 0;
    } else {
      var last := |words| - 1;
      var m := SwappedTotal(words[..last]);
      SwapIsProduct(words[last]);
      SwapBounds(words[last]);
      assert SwapAll(words)[..last] == SwapAll(words[..last]);
      k := m + words[last] / 256;
      DivMod.Distribute(m, words[last] / 256, BASE);
    }
  }

  /** Section 2 (B) of RFC 1071: the checksum of the byte-swapped words is the byte-swapped
      checksum, so the result does not depend on the byte order of the machine. */
  lemma ByteOrderIndependent(words: seq<Word>)
    ensures Checksum(SwapAll(words)) == Swap(Checksum(words))
  {
    hide Swap;
    var t, u := Total(words), Total(SwapAll(words));
    var k := SwappedTotal(words);
    var s := OnesSum(t);
    ReducedTotal(t);
    ReducedTotal(u);
    SwapComplement(s);
    SwapIsProduct(s);
    SwapBounds(s);
    SwapOfReduced(t, u, k, s);
  }

  /** A sum and its ones' complement reduction differ by a multiple of 65535. */
  lemma ReducedTotal(t: nat)
    ensures t == OnesSum(t) + (if t == 0 then 0 else (t - 1) / BASE) * BASE
  {
    if t > 0 {
      DivMod.Split(t - 1, BASE);
    }
  }

  lemma SwapComplement(s: Word)
    ensures BASE - Swap(s) == Swap(BASE - s)
  {
  }

  lemma SwapBounds(s: Word)
    ensures Swap(s) == 0 <==> s == 0
  {
  }

  lemma SwapOfReduced(t: nat, u: nat, k: nat, s: Word)
    requires 256 * t == u + k * BASE && s == OnesSum(t) && (u == 0 <==> t == 0)
    ensures OnesSum(u) == Swap(s)
  {
    hide Swap;
    ReducedTotal(t);
    SwapIsProduct(s);
    SwapBounds(s);
    var p := if t == 0 then 0 else (t - 1) / BASE;
    var v := Swap(s);
    var m := 256 * p + s / 256 - k;
    SwapOfReducedMultiple(t, u, k, s, p, v, m);
  }

  lemma SwapOfReducedMultiple(t: nat, u: nat, k: nat, s: Word, p: nat, v: Word, m: int)
    requires 256 * t == u + k * BASE && t == s + p * BASE && 256 * s == v + (s / 256) * BASE
    requires m == 256 * p + s / 256 - k && (v == 0 <==> s == 0) && (s == 0 <==> t == 0) && (u == 0 <==> t == 0)
    ensures OnesSum(u) == v
  {
    assert u == v + m * BASE;
    if t == 0 {
      assert u == 0;
    } else {
      assert v > 0;
      DivMod.AddMultiple(v - 1, m, BASE);
      SmallOnesSum(v);
    }
  }
}
