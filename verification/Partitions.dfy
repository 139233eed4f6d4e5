/** The other ways in which the programs cut an array among nprocs ranks. */
module Partitions {
  import opened Arithmetic

  /* ---------------- contiguous pieces with a remainder ---------------- */

  function Start(total: nat, nprocs: nat, rank: nat): nat
    requires nprocs > 0
  {
    DivMod(total, nprocs);
    MulMono(0, total / nprocs, rank);
    total / nprocs * rank + if rank < total % nprocs then rank else total % nprocs
  }

  /** The piece of a rank, adjusted step by step. */
  method Piece(total: nat, nprocs: nat, rank: nat) returns (start: int, count: int)
    requires rank < nprocs
    ensures start == Start(total, nprocs, rank) && start + count == Start(total, nprocs, rank + 1)
    ensures count == total / nprocs || count == total / nprocs + 1
  {
    start := total / nprocs * rank;
    count := total / nprocs;
    if rank < total % nprocs {
      start := start + rank;
      count := count + 1;
    } else {
      start := start + total % nprocs;
    }
    assert total / nprocs * (rank + 1) == total / nprocs * rank + total / nprocs;
  }

  lemma StartsGrow(total: nat, nprocs: nat, r: nat, s: nat)
    requires nprocs > 0 && r <= s
    ensures Start(total, nprocs, r) <= Start(total, nprocs, s)
  {
  }

  lemma Ends(total: nat, nprocs: nat)
    requires nprocs > 0
    ensures Start(total, nprocs, 0) == 0 && Start(total, nprocs, nprocs) == total
  {
  }

  /** The rank whose piece holds x, searched from the last rank down. */
  lemma {:induction false} Holder(total: nat, nprocs: nat, x: nat, upto: nat) returns (r: nat)
    requires 0 < nprocs && 0 < upto && x < Start(total, nprocs, upto)
    ensures r < upto && Start(total, nprocs, r) <= x < Start(total, nprocs, r + 1)
  {
    if Start(total, nprocs, upto - 1) <= x {
      r := upto - 1;
    } else {
      Ends(total, nprocs);
      r := Holder(total, nprocs, x, upto - 1);
    }
  }

  /** Every element is in the piece of exactly one rank, and no piece sticks out. */
  lemma PiecesTile(total: nat, nprocs: nat, x: nat) returns (r: nat)
    requires nprocs > 0 && x < total
    ensures r < nprocs && Start(total, nprocs, nprocs) == total
    ensures forall s: nat :: s < nprocs ==>
      (Start(total, nprocs, s) <= x < Start(total, nprocs, s + 1) <==> s == r)
  {
    Ends(total, nprocs);
    r := Holder(total, nprocs, x, nprocs);
    forall s: nat | s < nprocs
      ensures Start(total, nprocs, s) <= x < Start(total, nprocs, s + 1) <==> s == r
    {
      if s < r { StartsGrow(total, nprocs, s + 1, r); }
      if r < s { StartsGrow(total, nprocs, r + 1, s); }
    }
  }

  /* ---------------- single columns in turn ---------------- */

  /** The columns of a rank: every nprocs-th, from its own number on. */
  method Cyclic(nprocs: nat, cols: nat, rank: nat) returns (starts: seq<int>)
    requires rank < nprocs
    ensures |starts| == cols && forall i :: 0 <= i < cols ==> starts[i] == i * nprocs + rank
  {
    var start := rank;
    starts := [];
    for i := 0 to cols
      invariant |starts| == i && start == i * nprocs + rank
      invariant forall k :: 0 <= k < i ==> starts[k] == k * nprocs + rank
    {
      starts := starts + [start];
      start := start + nprocs;
    }
  }

  /** The columns of all ranks are disjoint and cover the array exactly. */
  lemma CyclicTiles(nprocs: nat, cols: nat, rank: nat, i: nat, x: nat)
    requires rank < nprocs && i < cols && x < cols * nprocs
    ensures 0 <= i * nprocs + rank < cols * nprocs
    ensures i * nprocs + rank == x <==> (i, rank) == (x / nprocs, x % nprocs)
    ensures x / nprocs < cols && x % nprocs < nprocs
  {
    DigitsBelow(i, cols, rank, nprocs);
    DivUnique(i * nprocs + rank, nprocs, i, rank);
    DivBelow(x, cols, nprocs);
    DivMod(x, nprocs);
  }

  /* ---------------- whose data a rank reads ---------------- */

  /** The rank whose part another one reads. */
  function Reads(rank: nat, nprocs: nat): nat
    requires nprocs > 0
  {
    (rank + nprocs / 2) % nprocs
  }

  /** Every part is read by exactly one rank, and with two ranks or more never by its writer. */
  lemma EachPartReadOnce(nprocs: nat, r: nat, s: nat) returns (reader: nat)
    requires r < nprocs && s < nprocs
    ensures reader < nprocs && Reads(reader, nprocs) == r
    ensures Reads(s, nprocs) == r <==> s == reader
    ensures nprocs > 1 ==> reader != r
  {
    var h := nprocs / 2;
    reader := if r >= h then r - h else r + nprocs - h;
    if r >= h { DivUnique(r, nprocs, 0, r); } else { DivUnique(r + nprocs, nprocs, 1, r); }
    if s + h < nprocs { DivUnique(s + h, nprocs, 0, s + h); } else { DivUnique(s + h, nprocs, 1, s + h - nprocs); }
  }

  /* ---------------- rows in halves ---------------- */

  /** Number of the half of a row, 0 or 1, that a column is written with. */
  function Half(len: nat, col: nat): nat {
    if col < len / 2 then 0 else 1
  }

  /** With len rows a rank, each written as a left and a right part, every cell is written by
      exactly one rank in exactly one part, even when len is odd. */
  lemma HalvesTile(len: nat, nprocs: nat, row: nat, col: nat, rank: nat, half: nat)
    requires row < nprocs * len && col < len && rank < nprocs && half < 2
    ensures len > 0 && row / len < nprocs
    ensures var start := if half == 0 then 0 else len / 2;
      var count := if half == 0 then len / 2 else len - len / 2;
      (len * rank <= row < len * rank + len && start <= col < start + count) <==> (rank == row / len && half == Half(len, col))
  {
    DivBelow(row, nprocs, len);
    DivMod(row, len);
    if len * rank <= row < len * rank + len { DivUnique(row, len, rank, row - len * rank); }
  }
}
