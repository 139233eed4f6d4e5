/** Row-major positions in a grid of any number of dimensions, ranks as positions in a process
    grid, and arrays that are cut into one block per rank. */
module RankGrid {
  import opened Arithmetic

  predicate Positive(sizes: seq<int>) {
    forall i :: 0 <= i < |sizes| ==> sizes[i] > 0
  }

  function Prod(sizes: seq<int>): int {
    if sizes == [] then 1 else sizes[0] * Prod(sizes[1..])
  }

  lemma {:induction false} ProdPositive(sizes: seq<int>)
    requires Positive(sizes)
    ensures Prod(sizes) > 0
  {
    if sizes != [] {
      ProdPositive(sizes[1..]);
      MulMono(1, sizes[0], Prod(sizes[1..]));
    }
  }

  /** idx is a position in a grid of these sizes. */
  predicate InBox(idx: seq<int>, sizes: seq<int>) {
    |idx| == |sizes| && forall i :: 0 <= i < |idx| ==> 0 <= idx[i] < sizes[i]
  }

  /** Row-major number of a position: the last dimension varies fastest. */
  function Flat(idx: seq<int>, sizes: seq<int>): int
    requires |idx| == |sizes|
  {
    if idx == [] then 0 else idx[0] * Prod(sizes[1..]) + Flat(idx[1..], sizes[1..])
  }

  /** The position with a given number. */
  function Unflat(x: int, sizes: seq<int>): (idx: seq<int>)
    requires Positive(sizes)
    ensures |idx| == |sizes|
    decreases |sizes|
  {
    if sizes == [] then []
    else
      ProdPositive(sizes[1..]);
      [x / Prod(sizes[1..])] + Unflat(x % Prod(sizes[1..]), sizes[1..])
  }

  lemma {:induction false} FlatInRange(idx: seq<int>, sizes: seq<int>)
    requires InBox(idx, sizes)
    ensures 0 <= Flat(idx, sizes) < Prod(sizes)
  {
    if idx != [] {
      FlatInRange(idx[1..], sizes[1..]);
      DigitsBelow(idx[0], sizes[0], Flat(idx[1..], sizes[1..]), Prod(sizes[1..]));
    }
  }

  lemma {:induction false} UnflatOfFlat(idx: seq<int>, sizes: seq<int>)
    requires Positive(sizes) && InBox(idx, sizes)
    ensures Unflat(Flat(idx, sizes), sizes) == idx
  {
    if idx != [] {
      ProdPositive(sizes[1..]);
      FlatInRange(idx[1..], sizes[1..]);
      DivUnique(Flat(idx, sizes), Prod(sizes[1..]), idx[0], Flat(idx[1..], sizes[1..]));
      UnflatOfFlat(idx[1..], sizes[1..]);
    }
  }

  lemma {:induction false} FlatOfUnflat(x: int, sizes: seq<int>)
    requires Positive(sizes) && 0 <= x < Prod(sizes)
    ensures InBox(Unflat(x, sizes), sizes) && Flat(Unflat(x, sizes), sizes) == x
  {
    if sizes != [] {
      var p := Prod(sizes[1..]);
      ProdPositive(sizes[1..]);
      DivMod(x, p);
      DivBelow(x, sizes[0], p);
      FlatOfUnflat(x % p, sizes[1..]);
    }
  }

  lemma Prod3(s: seq<int>)
    requires |s| == 3
    ensures Prod(s) == s[0] * s[1] * s[2] && Prod(s[1..]) == s[1] * s[2] && Prod(s[2..]) == s[2]
  {
    assert s[1..][1..] == s[2..] && s[2..][1..] == [];
    assert Prod(s[2..]) == s[2] * Prod(s[2..][1..]) && Prod(s[1..]) == s[1] * Prod(s[2..]);
  }

  lemma Flat3(idx: seq<int>, sizes: seq<int>)
    requires |idx| == |sizes| == 3
    ensures Flat(idx, sizes) == idx[0] * (sizes[1] * sizes[2]) + idx[1] * sizes[2] + idx[2]
  {
    Prod3(sizes);
    assert sizes[1..][1..] == sizes[2..] && idx[1..][1..] == idx[2..];
    assert sizes[2..][1..] == [] && idx[2..][1..] == [];
    assert Flat(idx[2..], sizes[2..]) == idx[2] * Prod(sizes[2..][1..]) + Flat(idx[2..][1..], sizes[2..][1..]) == idx[2];
    assert Flat(idx[1..], sizes[1..]) == idx[1] * Prod(sizes[2..]) + Flat(idx[2..], sizes[2..]);
  }

  /** Ranks and grid points correspond one to one. */
  lemma RanksAreGridPoints(sizes: seq<int>, x: int, idx: seq<int>)
    requires Positive(sizes) && 0 <= x < Prod(sizes) && InBox(idx, sizes)
    ensures Unflat(x, sizes) == idx <==> x == Flat(idx, sizes)
  {
    UnflatOfFlat(idx, sizes);
    FlatOfUnflat(x, sizes);
  }

  lemma DivDiv(x: nat, a: nat, b: nat)
    requires a > 0 && b > 0
    ensures a * b > 0 && x / (a * b) == x / b / a && x / b % a == x % (a * b) / b
  {
    DivMod(x, b);
    DivMod(x / b, a);
    var q, r, s := x / b / a, x / b % a, x % b;
    DigitsBelow(r, a, s, b);
    assert x == q * (a * b) + (r * b + s);
    DivUnique(x, a * b, q, r * b + s);
    DivUnique(r * b + s, b, r, s);
  }

  /** A single coordinate, without the others: divide by the sizes below it. */
  lemma {:induction false} Digit(x: nat, sizes: seq<int>, k: nat)
    requires Positive(sizes) && k < |sizes| && x < Prod(sizes)
    ensures Prod(sizes[k + 1..]) > 0
    ensures Unflat(x, sizes)[k] == x / Prod(sizes[k + 1..]) % sizes[k]
  {
    var p := Prod(sizes[1..]);
    ProdPositive(sizes[1..]);
    ProdPositive(sizes[k + 1..]);
    if k == 0 {
      DivBelow(x, sizes[0], p);
      DivUnique(x / p, sizes[0], 0, x / p);
    } else {
      DivMod(x, p);
      Digit(x % p, sizes[1..], k - 1);
      assert sizes[1..][k..] == sizes[k + 1..];
      DigitBelow(x, sizes[1..], k - 1);
    }
  }

  /** A coordinate does not see what lies above it. */
  lemma {:induction false} DigitBelow(x: nat, sizes: seq<int>, k: nat)
    requires Positive(sizes) && k < |sizes|
    ensures Prod(sizes) > 0 && Prod(sizes[k + 1..]) > 0
    ensures x % Prod(sizes) / Prod(sizes[k + 1..]) % sizes[k] == x / Prod(sizes[k + 1..]) % sizes[k]
  {
    var p, q := Prod(sizes), Prod(sizes[k + 1..]);
    ProdPositive(sizes);
    ProdPositive(sizes[k + 1..]);
    if k == 0 {
      DivDiv(x, sizes[0], q);
      DivMod(x / q, sizes[0]);
      DivUnique(x / q % sizes[0], sizes[0], 0, x / q % sizes[0]);
    } else {
      var p1 := Prod(sizes[1..]);
      ProdPositive(sizes[1..]);
      assert sizes[1..][k..] == sizes[k + 1..];
      assert sizes[1..][k - 1] == sizes[k];
      DivMod(x, p);
      var y := x % p;
      DigitBelow(x, sizes[1..], k - 1);
      DigitBelow(y, sizes[1..], k - 1);
      ModOfMod(x, sizes[0], p1);
      assert y % p1 == x % p1;
    }
  }

  lemma ModOfMod(x: nat, a: nat, b: nat)
    requires a > 0 && b > 0
    ensures a * b > 0 && x % (a * b) % b == x % b
  {
    DivDiv(x, a, b);
    DivMod(x, a * b);
    DivMod(x % (a * b), b);
    DivMod(x, b);
    var q := x / (a * b) * a + x % (a * b) / b;
    assert x == q * b + x % (a * b) % b;
    DivUnique(x, b, q, x % (a * b) % b);
  }

  /** The loop by which a process finds its grid point. */
  method GridPoint(rank: nat, psizes: seq<int>) returns (starts: seq<int>)
    requires Positive(psizes) && rank < Prod(psizes)
    ensures starts == Unflat(rank, psizes)
    ensures InBox(starts, psizes) && Flat(starts, psizes) == rank
  {
    starts := seq(|psizes|, _ => 0);
    var lowerDims, i := 1, |psizes|;
    while i > 0
      invariant 0 <= i <= |psizes| == |starts| && lowerDims == Prod(psizes[i..])
      invariant forall k :: i <= k < |psizes| ==> starts[k] == Unflat(rank, psizes)[k]
    {
      i := i - 1;
      Digit(rank, psizes, i);
      starts := starts[i := rank / lowerDims % psizes[i]];
      assert psizes[i..][1..] == psizes[i + 1..];
      lowerDims := lowerDims * psizes[i];
    }
    FlatOfUnflat(rank, psizes);
  }

  /* ---------------- one block per rank ---------------- */

  function Times(a: seq<int>, b: seq<int>): (r: seq<int>)
    requires |a| == |b|
  {
    seq(|a|, i requires 0 <= i < |a| => a[i] * b[i])
  }

  function Plus(a: seq<int>, b: seq<int>): (r: seq<int>)
    requires |a| == |b|
  {
    seq(|a|, i requires 0 <= i < |a| => a[i] + b[i])
  }

  function Minus(a: seq<int>, b: seq<int>): (r: seq<int>)
    requires |a| == |b|
  {
    seq(|a|, i requires 0 <= i < |a| => a[i] - b[i])
  }

  /** Where the block of a rank starts. */
  function StartOf(rank: int, psizes: seq<int>, counts: seq<int>): (s: seq<int>)
    requires Positive(psizes) && |counts| == |psizes|
  {
    Times(Unflat(rank, psizes), counts)
  }

  predicate InBlock(cell: seq<int>, starts: seq<int>, counts: seq<int>) {
    |cell| == |starts| == |counts| && forall i :: 0 <= i < |cell| ==> starts[i] <= cell[i] < starts[i] + counts[i]
  }

  /** The rank whose block holds a cell. */
  function Owner(cell: seq<int>, psizes: seq<int>, counts: seq<int>): int
    requires Positive(counts) && |cell| == |psizes| == |counts|
  {
    Flat(seq(|cell|, i requires 0 <= i < |cell| => cell[i] / counts[i]), psizes)
  }

  /** The blocks tile the array: a cell lies in the block of its owner and of nobody else. */
  lemma BlocksTile(cell: seq<int>, psizes: seq<int>, counts: seq<int>, rank: int)
    requires Positive(psizes) && Positive(counts) && |psizes| == |counts|
    requires InBox(cell, Times(counts, psizes)) && 0 <= rank < Prod(psizes)
    ensures 0 <= Owner(cell, psizes, counts) < Prod(psizes)
    ensures InBlock(cell, StartOf(rank, psizes, counts), counts) <==> rank == Owner(cell, psizes, counts)
  {
    var point := seq(|cell|, i requires 0 <= i < |cell| => cell[i] / counts[i]);
    forall i | 0 <= i < |cell| ensures 0 <= point[i] < psizes[i] {
      assert cell[i] < counts[i] * psizes[i] == psizes[i] * counts[i];
      DivBelow(cell[i], psizes[i], counts[i]);
    }
    FlatInRange(point, psizes);
    RanksAreGridPoints(psizes, rank, point);
    FlatOfUnflat(rank, psizes);
    var at := Unflat(rank, psizes);
    forall i | 0 <= i < |cell|
      ensures StartOf(rank, psizes, counts)[i] <= cell[i] < StartOf(rank, psizes, counts)[i] + counts[i] <==> point[i] == at[i]
    {
      InInterval(cell[i], counts[i], at[i]);
    }
    assert InBlock(cell, StartOf(rank, psizes, counts), counts) <==> point == at;
  }

  lemma InInterval(x: nat, n: nat, q: int)
    requires n > 0
    ensures q * n <= x < q * n + n <==> x / n == q
  {
    DivMod(x, n);
    if q * n <= x < q * n + n { DivUnique(x, n, q, x - q * n); }
  }

  /** No block sticks out of the array. */
  lemma BlockInside(cell: seq<int>, psizes: seq<int>, counts: seq<int>, rank: int)
    requires Positive(psizes) && Positive(counts) && |psizes| == |counts|
    requires 0 <= rank < Prod(psizes) && InBlock(cell, StartOf(rank, psizes, counts), counts)
    ensures InBox(cell, Times(counts, psizes))
  {
    FlatOfUnflat(rank, psizes);
    var at := Unflat(rank, psizes);
    forall i | 0 <= i < |cell| ensures 0 <= cell[i] < Times(counts, psizes)[i] {
      DigitsBelow(at[i], psizes[i], cell[i] - StartOf(rank, psizes, counts)[i], counts[i]);
      assert psizes[i] * counts[i] == counts[i] * psizes[i];
    }
  }
}
