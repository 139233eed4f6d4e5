/** The block-cyclic schedule: columns are dealt to the ranks a block at a time, and the last block
    of every rank is shorter when the block length does not divide the number of columns. */
module BlockCyclic {
  import opened Arithmetic

  /** Ranks, columns per rank, columns per block. */
  datatype Deal = Deal(nprocs: nat, cols: nat, len: nat)

  predicate DealOk(c: Deal) {
    c.nprocs > 0 && 0 < c.len <= c.cols
  }

  function Min(a: int, b: int): int {
    if a < b then a else b
  }

  /** A block is no longer than what a rank has. */
  function Dealt(nprocs: nat, cols: nat, len: nat): Deal {
    Deal(nprocs, cols, if len > cols then cols else len)
  }

  /** Length of each rank's q-th block. */
  function BlockLen(c: Deal, q: nat): int {
    Min(c.cols - q * c.len, c.len)
  }

  /** The i-th column of a rank, without the loop. */
  function Column(c: Deal, rank: nat, i: nat): int
    requires c.len > 0
  {
    i / c.len * (c.len * c.nprocs) + BlockLen(c, i / c.len) * rank + i % c.len
  }

  /** The loop that both the writer and the reader run. */
  method Schedule(nprocs: nat, myNX: nat, blockLen0: nat, rank: nat) returns (starts: seq<int>)
    requires nprocs > 0 && myNX > 0 && blockLen0 > 0 && rank < nprocs
    ensures |starts| == myNX && DealOk(Dealt(nprocs, myNX, blockLen0))
    ensures forall i :: 0 <= i < myNX ==> starts[i] == Column(Dealt(nprocs, myNX, blockLen0), rank, i)
  {
    var blockStart, blockLen := 0, blockLen0;
    if blockLen > myNX { blockLen := myNX; }
    ghost var c := Dealt(nprocs, myNX, blockLen0);
    var start := rank * blockLen;
    starts := [];
    DivUnique(0, blockLen, 0, 0);
    for i := 0 to myNX
      invariant |starts| == i && forall k :: 0 <= k < i ==> starts[k] == Column(c, rank, k)
      invariant blockStart == i / blockLen * (blockLen * nprocs)
      invariant i < myNX ==> start == Column(c, rank, i)
    {
      starts := starts + [start];
      NextColumn(c, rank, i);
      if i % blockLen == blockLen - 1 {
        var stride := Min(myNX - 1 - i, blockLen);
        blockStart := blockStart + blockLen * nprocs;
        start := blockStart + stride * rank;
      } else {
        start := start + 1;
      }
    }
  }

  /** From one column to the next: the neighbour, or the start of the rank's next block. */
  lemma NextColumn(c: Deal, rank: nat, i: nat)
    requires c.len > 0
    ensures i % c.len != c.len - 1 ==> (i + 1) / c.len == i / c.len && Column(c, rank, i + 1) == Column(c, rank, i) + 1
    ensures i % c.len == c.len - 1 ==>
      (i + 1) / c.len * (c.len * c.nprocs) == i / c.len * (c.len * c.nprocs) + c.len * c.nprocs
    ensures i % c.len == c.len - 1 ==>
      Column(c, rank, i + 1) == (i + 1) / c.len * (c.len * c.nprocs) + Min(c.cols - 1 - i, c.len) * rank
  {
    var q, o := i / c.len, i % c.len;
    DivMod(i, c.len);
    if o == c.len - 1 {
      assert i + 1 == (q + 1) * c.len;
      DivUnique(i + 1, c.len, q + 1, 0);
    } else {
      DivUnique(i + 1, c.len, q, o + 1);
    }
  }

  /* ---------------- the schedule is a bijection ---------------- */

  /** The rank and the place in its schedule that a column belongs to. */
  function Place(c: Deal, x: nat): (nat, nat)
    requires DealOk(c) && x < c.cols * c.nprocs
  {
    MulMono(1, c.nprocs, c.len);
    var round := c.len * c.nprocs;
    var q := x / round;
    RoundOf(c, x);
    (x % round / BlockLen(c, q), q * c.len + x % round % BlockLen(c, q))
  }

  lemma RoundOf(c: Deal, x: nat)
    requires DealOk(c) && x < c.cols * c.nprocs
    ensures var q := x / (c.len * c.nprocs);
      c.len * c.nprocs > 0 && 0 < BlockLen(c, q) <= c.len && x % (c.len * c.nprocs) < c.nprocs * BlockLen(c, q)
  {
  }

  lemma ColumnOfPlace(c: Deal, x: nat)
    requires DealOk(c) && x < c.cols * c.nprocs
    ensures Place(c, x).0 < c.nprocs && Place(c, x).1 < c.cols
    ensures Column(c, Place(c, x).0, Place(c, x).1) == x
  {
    RoundOf(c, x);
    var round := c.len * c.nprocs;
    var q := x / round;
    var l, rem := BlockLen(c, q), x % round;
    DivMod(x, round);
    DivMod(rem, l);
    DivBelow(rem, c.nprocs, l);
    DivUnique(q * c.len + rem % l, c.len, q, rem % l);
  }

  lemma PlaceOfColumn(c: Deal, rank: nat, i: nat)
    requires DealOk(c) && rank < c.nprocs && i < c.cols
    ensures 0 <= Column(c, rank, i) < c.cols * c.nprocs
    ensures Place(c, Column(c, rank, i)) == (rank, i)
  {
    var round, q, o := c.len * c.nprocs, i / c.len, i % c.len;
    var l := BlockLen(c, q);
    DivMod(i, c.len);
    assert o < l;
    DigitsBelow(rank, c.nprocs, o, l);
    var rem := l * rank + o;
    assert rem == rank * l + o;
    MulMono(l, c.len, c.nprocs);
    assert 0 <= rem < round by { assert c.nprocs * l == l * c.nprocs; }
    var x := q * round + rem;
    MulMono(0, q, round);
    assert x < c.cols * c.nprocs by {
      assert q * round == q * c.len * c.nprocs;
      MulMono(q * c.len + l, c.cols, c.nprocs);
      assert (q * c.len + l) * c.nprocs == q * c.len * c.nprocs + l * c.nprocs;
    }
    DivUnique(x, round, q, rem);
    DivUnique(rem, l, rank, o);
  }

  /** The columns of all ranks are disjoint and cover the array exactly, whether or not the block
      length divides the number of columns. */
  lemma ColumnsTile(c: Deal, x: nat, rank: nat, i: nat)
    requires DealOk(c) && rank < c.nprocs && i < c.cols
    requires x < c.cols * c.nprocs
    ensures 0 <= Column(c, rank, i) < c.cols * c.nprocs
    ensures Column(c, rank, i) == x <==> Place(c, x) == (rank, i)
    ensures Place(c, x).0 < c.nprocs && Place(c, x).1 < c.cols
  {
    ColumnOfPlace(c, x);
    PlaceOfColumn(c, rank, i);
  }

  /* ---------------- writing, then reading back ---------------- */

  /** One column write: which rank, which of its columns. */
  datatype Request = Request(rank: nat, i: nat)

  predicate RequestOk(c: Deal, r: Request) {
    r.rank < c.nprocs && r.i < c.cols
  }

  /** The array after the column writes, in whatever order the library completes them: zero, or
      what was written last. */
  function Written(c: Deal, done: seq<Request>, x: nat): int
    requires DealOk(c) && forall k :: 0 <= k < |done| ==> RequestOk(c, done[k])
  {
    if done == [] then 0
    else
      var r := done[|done| - 1];
      if Column(c, r.rank, r.i) == x then r.rank + 10 else Written(c, done[..|done| - 1], x)
  }

  lemma {:induction false} WrittenAt(c: Deal, done: seq<Request>, x: nat)
    requires DealOk(c) && (forall k :: 0 <= k < |done| ==> RequestOk(c, done[k])) && x < c.cols * c.nprocs
    ensures Written(c, done, x) ==
      if Request(Place(c, x).0, Place(c, x).1) in done then Place(c, x).0 + 10 else 0
  {
    if done != [] {
      var before, r := done[..|done| - 1], done[|done| - 1];
      assert done == before + [r];
      WrittenAt(c, before, x);
      assert RequestOk(c, r);
      ColumnsTile(c, x, r.rank, r.i);
    }
  }

  /** Once every request has been completed, in any order and any interleaving of the ranks, no
      zero is left, and the reader's schedule brings each rank its own mark from every column. */
  lemma ReadsBack(c: Deal, done: seq<Request>, rank: nat, i: nat)
    requires DealOk(c) && forall k :: 0 <= k < |done| ==> RequestOk(c, done[k])
    requires forall r: Request :: RequestOk(c, r) ==> r in done
    requires rank < c.nprocs && i < c.cols
    ensures Column(c, rank, i) >= 0 && Written(c, done, Column(c, rank, i)) == rank + 10
    ensures forall x: nat :: x < c.cols * c.nprocs ==> Written(c, done, x) != 0
  {
    PlaceOfColumn(c, rank, i);
    assert RequestOk(c, Request(rank, i));
    WrittenAt(c, done, Column(c, rank, i));
    forall x: nat | x < c.cols * c.nprocs ensures Written(c, done, x) != 0 {
      ColumnOfPlace(c, x);
      assert RequestOk(c, Request(Place(c, x).0, Place(c, x).1));
      WrittenAt(c, done, x);
    }
  }
}
