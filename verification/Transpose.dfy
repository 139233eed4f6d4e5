/** Writing one block per rank through a memory map that transposes it (ncmpi_put_varm), in any
    number of dimensions. */
module Transpose {
  import opened NetCDF
  import opened Arithmetic
  import opened RankGrid

  /** A variable in the file: a value in every cell that has been written. */
  type Variable = seq<int> -> Option<int>

  function Dot(idx: seq<int>, steps: seq<int>): int
    requires |idx| == |steps|
  {
    if idx == [] then 0 else idx[0] * steps[0] + Dot(idx[1..], steps[1..])
  }

  /** The k-th memory cell, if it is inside the buffer. */
  function At(buf: seq<int>, k: int): Option<int> {
    if 0 <= k < |buf| then Some(buf[k]) else None
  }

  /** The variable after a write: element idx of the block comes from memory cell
      origin + sum of idx[d] * steps[d]. */
  function Put(v: Variable, starts: seq<int>, counts: seq<int>, steps: seq<int>, buf: seq<int>, origin: int): Variable
    requires |starts| == |counts| == |steps|
  {
    cell => if InBlock(cell, starts, counts) then At(buf, origin + Dot(Minus(cell, starts), steps)) else v(cell)
  }

  /** Distance in memory between neighbours along each dimension of a row-major buffer. */
  function Strides(counts: seq<int>): (s: seq<int>)
    ensures |s| == |counts|
  {
    if counts == [] then [] else [Prod(counts[1..])] + Strides(counts[1..])
  }

  /** Flat is the dot product with the strides. */
  lemma {:induction false} DotStrides(idx: seq<int>, counts: seq<int>)
    requires |idx| == |counts|
    ensures Dot(idx, Strides(counts)) == Flat(idx, counts)
  {
    if idx != [] { DotStrides(idx[1..], counts[1..]); }
  }

  /* ---------------- permuting dimensions ---------------- */

  predicate IsPerm(sigma: seq<int>) {
    && (forall d :: 0 <= d < |sigma| ==> 0 <= sigma[d] < |sigma|)
    && (forall d, e :: 0 <= d < e < |sigma| ==> sigma[d] != sigma[e])
    && (forall k :: 0 <= k < |sigma| ==> k in sigma)
  }

  /** Entry d of the result is entry sigma[d] of the argument. */
  function Permuted(x: seq<int>, sigma: seq<int>): (y: seq<int>)
    requires IsPerm(sigma) && |x| == |sigma|
    ensures |y| == |sigma|
  {
    seq(|sigma|, d requires 0 <= d < |sigma| => x[sigma[d]])
  }

  function Place(sigma: seq<int>, k: int): (d: int)
    requires k in sigma
    ensures 0 <= d < |sigma| && sigma[d] == k
  {
    if sigma[0] == k then 0 else 1 + Place(sigma[1..], k)
  }

  /** The inverse of Permuted. */
  function Restored(y: seq<int>, sigma: seq<int>): (x: seq<int>)
    requires IsPerm(sigma) && |y| == |sigma|
    ensures |x| == |sigma|
  {
    seq(|sigma|, k requires 0 <= k < |sigma| => y[Place(sigma, k)])
  }

  lemma RestoredPermuted(y: seq<int>, x: seq<int>, sigma: seq<int>)
    requires IsPerm(sigma) && |y| == |sigma| == |x|
    ensures y == Permuted(x, sigma) <==> x == Restored(y, sigma)
  {
  }

  function Without(s: seq<int>, i: nat): (r: seq<int>)
    requires i < |s|
  {
    s[..i] + s[i + 1..]
  }

  lemma {:induction false} DotWithout(x: seq<int>, y: seq<int>, i: nat)
    requires |x| == |y| && i < |x|
    ensures Dot(x, y) == x[i] * y[i] + Dot(Without(x, i), Without(y, i))
  {
    if i > 0 {
      DotWithout(x[1..], y[1..], i - 1);
      assert Without(x, i)[1..] == Without(x[1..], i - 1);
      assert Without(y, i)[1..] == Without(y[1..], i - 1);
    } else {
      assert Without(x, 0) == x[1..] && Without(y, 0) == y[1..];
    }
  }

  lemma ShorterPerm(sigma: seq<int>, j: nat)
    requires IsPerm(sigma) && j < |sigma| && sigma[j] == |sigma| - 1
    ensures IsPerm(Without(sigma, j))
  {
    var s := Without(sigma, j);
    forall k | 0 <= k < |s| ensures k in s {
      var d := Place(sigma, k);
      assert s[if d < j then d else d - 1] == k;
    }
  }

  lemma WithoutLast(x: seq<int>, sigma: seq<int>, j: nat)
    requires IsPerm(sigma) && |x| == |sigma| && j < |sigma| && sigma[j] == |sigma| - 1
    ensures IsPerm(Without(sigma, j))
    ensures Without(Permuted(x, sigma), j) == Permuted(x[..|x| - 1], Without(sigma, j))
  {
    ShorterPerm(sigma, j);
    var rest := Without(sigma, j);
    forall d | 0 <= d < |rest|
      ensures 0 <= rest[d] < |rest| && Without(Permuted(x, sigma), j)[d] == x[rest[d]]
    {
    }
  }

  /** Permuting both sides leaves a dot product as it is. */
  lemma {:induction false} DotPermuted(x: seq<int>, y: seq<int>, sigma: seq<int>)
    requires IsPerm(sigma) && |x| == |y| == |sigma|
    ensures Dot(Permuted(x, sigma), Permuted(y, sigma)) == Dot(x, y)
    decreases |sigma|
  {
    if sigma != [] {
      var n := |sigma| - 1;
      var j := Place(sigma, n);
      WithoutLast(x, sigma, j);
      WithoutLast(y, sigma, j);
      DotPermuted(x[..n], y[..n], Without(sigma, j));
      DotWithout(x, y, n);
      DotWithout(Permuted(x, sigma), Permuted(y, sigma), j);
      assert Without(x, n) == x[..n] && Without(y, n) == y[..n];
    }
  }

  /* ---------------- one rank's write ---------------- */

  /** What a rank keeps in memory: its block, each cell holding its number in the whole array. */
  function Local(starts: seq<int>, counts: seq<int>, gsizes: seq<int>): (buf: seq<int>)
    requires Positive(counts) && |starts| == |counts| == |gsizes|
  {
    ProdPositive(counts);
    seq(Prod(counts), x => Flat(Plus(starts, Unflat(x, counts)), gsizes))
  }

  lemma LocalAt(l: seq<int>, starts: seq<int>, counts: seq<int>, gsizes: seq<int>)
    requires Positive(counts) && |starts| == |counts| == |gsizes| && InBox(l, counts)
    ensures 0 <= Flat(l, counts) < |Local(starts, counts, gsizes)|
    ensures Local(starts, counts, gsizes)[Flat(l, counts)] == Flat(Plus(starts, l), gsizes)
  {
    FlatInRange(l, counts);
    UnflatOfFlat(l, counts);
  }

  /** A rank's transposed write. */
  function PutTransposed(v: Variable, sigma: seq<int>, starts: seq<int>, counts: seq<int>, buf: seq<int>): Variable
    requires IsPerm(sigma) && |starts| == |counts| == |sigma|
  {
    Put(v, Permuted(starts, sigma), Permuted(counts, sigma), Permuted(Strides(counts), sigma), buf, 0)
  }

  lemma PermutedBlock(cell: seq<int>, sigma: seq<int>, starts: seq<int>, counts: seq<int>)
    requires IsPerm(sigma) && |starts| == |counts| == |sigma| == |cell|
    ensures InBlock(cell, Permuted(starts, sigma), Permuted(counts, sigma))
       <==> InBlock(Restored(cell, sigma), starts, counts)
  {
  }

  /** A write puts the number of the untransposed position into every cell of its block. */
  lemma WriteIsTranspose(v: Variable, cell: seq<int>, sigma: seq<int>, starts: seq<int>, counts: seq<int>, gsizes: seq<int>)
    requires IsPerm(sigma) && |starts| == |counts| == |gsizes| == |sigma| == |cell| && Positive(counts)
    ensures var v' := PutTransposed(v, sigma, starts, counts, Local(starts, counts, gsizes));
      v'(cell) == if InBlock(Restored(cell, sigma), starts, counts)
                  then Some(Flat(Restored(cell, sigma), gsizes)) else v(cell)
  {
    PermutedBlock(cell, sigma, starts, counts);
    if InBlock(Restored(cell, sigma), starts, counts) {
      var x := Restored(cell, sigma);
      var l := Minus(x, starts);
      RestoredPermuted(cell, x, sigma);
      assert Minus(cell, Permuted(starts, sigma)) == Permuted(l, sigma);
      DotPermuted(l, Strides(counts), sigma);
      DotStrides(l, counts);
      LocalAt(l, starts, counts, gsizes);
      assert Plus(starts, l) == x;
    }
  }

  /* ---------------- all ranks' writes ---------------- */

  predicate RanksOf(order: seq<int>, nprocs: int) {
    forall k :: 0 <= k < |order| ==> 0 <= order[k] < nprocs
  }

  predicate EveryRank(order: seq<int>, nprocs: int) {
    forall r :: 0 <= r < nprocs ==> r in order
  }

  /** The variable after writes by these ranks, in this order. */
  function Assembled(order: seq<int>, sigma: seq<int>, psizes: seq<int>, counts: seq<int>): Variable
    requires IsPerm(sigma) && Positive(psizes) && Positive(counts) && |psizes| == |counts| == |sigma|
  {
    if order == [] then _ => None
    else
      var rank := order[|order| - 1];
      var starts := StartOf(rank, psizes, counts);
      PutTransposed(Assembled(order[..|order| - 1], sigma, psizes, counts), sigma, starts, counts,
                    Local(starts, counts, Times(counts, psizes)))
  }

  lemma InBlockIffOwner(x: seq<int>, psizes: seq<int>, counts: seq<int>, rank: int)
    requires Positive(psizes) && Positive(counts) && |psizes| == |counts| == |x| && 0 <= rank < Prod(psizes)
    ensures InBlock(x, StartOf(rank, psizes, counts), counts)
       <==> InBox(x, Times(counts, psizes)) && rank == Owner(x, psizes, counts)
  {
    if InBox(x, Times(counts, psizes)) { BlocksTile(x, psizes, counts, rank); }
    if InBlock(x, StartOf(rank, psizes, counts), counts) { BlockInside(x, psizes, counts, rank); }
  }

  lemma LastWrite(order: seq<int>, sigma: seq<int>, psizes: seq<int>, counts: seq<int>, cell: seq<int>)
    requires IsPerm(sigma) && Positive(psizes) && Positive(counts) && |psizes| == |counts| == |sigma| == |cell|
    requires order != [] && 0 <= order[|order| - 1] < Prod(psizes)
    ensures var x, g, rank := Restored(cell, sigma), Times(counts, psizes), order[|order| - 1];
      Assembled(order, sigma, psizes, counts)(cell) ==
        if InBox(x, g) && rank == Owner(x, psizes, counts) then Some(Flat(x, g))
        else Assembled(order[..|order| - 1], sigma, psizes, counts)(cell)
  {
    var before, rank := Assembled(order[..|order| - 1], sigma, psizes, counts), order[|order| - 1];
    WriteIsTranspose(before, cell, sigma, StartOf(rank, psizes, counts), counts, Times(counts, psizes));
    InBlockIffOwner(Restored(cell, sigma), psizes, counts, rank);
  }

  lemma {:induction false} AssembledAt(order: seq<int>, sigma: seq<int>, psizes: seq<int>, counts: seq<int>, cell: seq<int>)
    requires IsPerm(sigma) && Positive(psizes) && Positive(counts) && |psizes| == |counts| == |sigma| == |cell|
    requires RanksOf(order, Prod(psizes))
    ensures var x := Restored(cell, sigma);
      Assembled(order, sigma, psizes, counts)(cell) ==
        if InBox(x, Times(counts, psizes)) && Owner(x, psizes, counts) in order
        then Some(Flat(x, Times(counts, psizes))) else None
  {
    if order != [] {
      var before := order[..|order| - 1];
      assert order == before + [order[|order| - 1]];
      AssembledAt(before, sigma, psizes, counts, cell);
      LastWrite(order, sigma, psizes, counts, cell);
    }
  }

  /** Once every rank has written, in whatever order, the variable is the exact transposition of
      the one array whose cells hold their row-major numbers: nothing missing, nothing outside. */
  lemma TransposedFile(order: seq<int>, sigma: seq<int>, psizes: seq<int>, counts: seq<int>, cell: seq<int>)
    requires IsPerm(sigma) && Positive(psizes) && Positive(counts) && |psizes| == |counts| == |sigma| == |cell|
    requires RanksOf(order, Prod(psizes)) && EveryRank(order, Prod(psizes))
    ensures var g := Times(counts, psizes);
      Assembled(order, sigma, psizes, counts)(cell) ==
        if InBox(cell, Permuted(g, sigma)) then Some(Flat(Restored(cell, sigma), g)) else None
  {
    var g, x := Times(counts, psizes), Restored(cell, sigma);
    AssembledAt(order, sigma, psizes, counts, cell);
    PermutedBlock(cell, sigma, seq(|sigma|, _ => 0), g);
    assert InBox(cell, Permuted(g, sigma)) <==> InBlock(cell, Permuted(seq(|sigma|, _ => 0), sigma), Permuted(g, sigma));
    assert InBox(x, g) <==> InBlock(x, seq(|sigma|, _ => 0), g);
    if InBox(x, g) {
      assert 0 <= 0 < Prod(psizes) by { ProdPositive(psizes); }
      BlocksTile(x, psizes, counts, 0);
    }
  }
}
