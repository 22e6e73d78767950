/** Two-dimensional buffers: one row for each stream. */
module Buffers {

  /** The contents of a buffer, row by row. */
  ghost function Rows<E>(a: array2<E>): (rows: seq<seq<E>>)
    reads a
    ensures |rows| == a.Length0
    ensures forall ss :: 0 <= ss < a.Length0 ==> |rows[ss]| == a.Length1
    ensures forall ss, x :: 0 <= ss < a.Length0 && 0 <= x < a.Length1 ==> rows[ss][x] == a[ss, x]
  {
    seq(a.Length0, ss requires 0 <= ss < a.Length0 reads a =>
      seq(a.Length1, x requires 0 <= x < a.Length1 reads a => a[ss, x]))
  }

  /** The elements outside a part of a buffer are what they were. */
  ghost predicate Outside<E>(now: seq<E>, before: seq<E>, from: nat, to: nat) {
    |now| == |before| && forall x :: 0 <= x < |now| && !(from <= x < to) ==> now[x] == before[x]
  }

  /** The inner loop over the streams that stores one value in column x. */
  method FillColumn<E>(to: array2<E>, x: nat, value: E)
    requires x < to.Length1
    modifies to
    ensures forall ss :: 0 <= ss < to.Length0 ==> to[ss, x] == value
    ensures forall ss, y :: 0 <= ss < to.Length0 && 0 <= y < to.Length1 && y != x ==> to[ss, y] == old(to[ss, y])
  {
    for ss := 0 to to.Length0
      invariant forall t :: 0 <= t < ss ==> to[t, x] == value
      invariant forall t, y :: 0 <= t < to.Length0 && 0 <= y < to.Length1 && y != x ==> to[t, y] == old(to[t, y])
    {
      to[ss, x] := value;
    }
  }

  /** The inner loop over the streams that copies column n of one buffer to column x of another. */
  method CopyColumn<E>(from: array2<E>, n: nat, to: array2<E>, x: nat)
    requires from != to && from.Length0 == to.Length0
    requires n < from.Length1 && x < to.Length1
    modifies to
    ensures forall ss :: 0 <= ss < to.Length0 ==> to[ss, x] == from[ss, n]
    ensures forall ss, y :: 0 <= ss < to.Length0 && 0 <= y < to.Length1 && y != x ==> to[ss, y] == old(to[ss, y])
  {
    for ss := 0 to to.Length0
      invariant forall t :: 0 <= t < ss ==> to[t, x] == from[t, n]
      invariant forall t, y :: 0 <= t < to.Length0 && 0 <= y < to.Length1 && y != x ==> to[t, y] == old(to[t, y])
    {
      to[ss, x] := from[ss, n];
    }
  }
}
