/** Writing a block out of a larger buffer whose border holds ghost cells. */
module GhostCells {
  import opened NetCDF
  import opened Arithmetic
  import opened RankGrid
  import opened Transpose

  const GHOST := -8

  /** Rows and columns of the block; ghosts is the width of the border. */
  datatype Shape = Shape(rows: nat, cols: nat, ghosts: nat)

  predicate ShapeOk(c: Shape) {
    c.rows > 0 && c.cols > 0
  }

  function Width(c: Shape): int {
    c.cols + 2 * c.ghosts
  }

  function Counts(c: Shape): seq<int> {
    [c.rows, c.cols]
  }

  /** The memory map, and the memory cell that it counts from. */
  function Steps(c: Shape): seq<int> {
    [Width(c), 1]
  }

  function Origin(c: Shape): int {
    c.ghosts * (Width(c) + 1)
  }

  /** Memory cell of element (i, j) of the block. */
  function Address(c: Shape, i: int, j: int): int {
    Origin(c) + Dot([i, j], Steps(c))
  }

  predicate Interior(c: Shape, i: int, j: int) {
    c.ghosts <= i < c.rows + c.ghosts && c.ghosts <= j < c.cols + c.ghosts
  }

  predicate IsBuffer(c: Shape, buf: seq<int>, rank: int) {
    && |buf| == (c.rows + 2 * c.ghosts) * Width(c)
    && forall k :: 0 <= k < |buf| && Width(c) > 0 ==>
         buf[k] == if Interior(c, k / Width(c), k % Width(c)) then rank else GHOST
  }

  /** The loops that fill the buffer with the rank, and the border with a value of its own. */
  method Fill(c: Shape, rank: int) returns (buf: array<int>)
    requires ShapeOk(c)
    ensures fresh(buf) && IsBuffer(c, buf[..], rank)
  {
    var h, w := c.rows + 2 * c.ghosts, Width(c);
    MulMono(0, h, w);
    buf := new int[h * w];
    for i := 0 to h
      invariant forall k :: 0 <= k < i * w && k < buf.Length ==> buf[k] == if Interior(c, k / w, k % w) then rank else GHOST
    {
      for j := 0 to w
        invariant forall k :: 0 <= k < i * w + j && k < buf.Length ==> buf[k] == if Interior(c, k / w, k % w) then rank else GHOST
      {
        DigitsBelow(i, h, j, w);
        DivUnique(i * w + j, w, i, j);
        buf[i * w + j] :=
          if c.ghosts <= i < c.rows + c.ghosts && c.ghosts <= j < c.cols + c.ghosts then rank else GHOST;
      }
      assert i * w + w == (i + 1) * w;
    }
  }

  lemma AddressIs(c: Shape, i: int, j: int)
    ensures Address(c, i, j) == (i + c.ghosts) * Width(c) + (j + c.ghosts)
  {
    assert [i, j][1..] == [j] && Steps(c)[1..] == [1] && [j][1..] == [] && [1][1..] == [];
    assert Dot([j], [1]) == j * 1 + Dot([j][1..], [1][1..]) == j;
    assert Dot([i, j], Steps(c)) == i * Width(c) + Dot([i, j][1..], Steps(c)[1..]);
  }

  predicate Visits(c: Shape, i: int, j: int, k: int) {
    0 <= i < c.rows && 0 <= j < c.cols && Address(c, i, j) == k
  }

  /** The addressing visits every interior cell exactly once, and no ghost cell. */
  lemma VisitsInterior(c: Shape, k: nat)
    requires ShapeOk(c) && k < (c.rows + 2 * c.ghosts) * Width(c)
    ensures Interior(c, k / Width(c), k % Width(c)) <==> exists i, j :: Visits(c, i, j, k)
    ensures forall i, j, i', j' :: Visits(c, i, j, k) && Visits(c, i', j', k) ==> i == i' && j == j'
  {
    var w := Width(c);
    DivMod(k, w);
    forall i, j | Visits(c, i, j, k) ensures i == k / w - c.ghosts && j == k % w - c.ghosts {
      AddressIs(c, i, j);
      DivUnique(k, w, i + c.ghosts, j + c.ghosts);
    }
    if Interior(c, k / w, k % w) {
      AddressIs(c, k / w - c.ghosts, k % w - c.ghosts);
      assert Visits(c, k / w - c.ghosts, k % w - c.ghosts, k);
    }
  }

  /** The grid point of a rank in two dimensions, as the program computes it. */
  lemma GridPointOf(rank: nat, psizes: seq<int>)
    requires |psizes| == 2 && Positive(psizes) && rank < Prod(psizes)
    ensures Unflat(rank, psizes) == [rank / psizes[1], rank % psizes[1]]
  {
  }

  /** The variable after writes by these ranks, in this order, each from a buffer with a border. */
  function Assembled(order: seq<int>, psizes: seq<int>, c: Shape, bufs: seq<seq<int>>): Variable
    requires ShapeOk(c) && |psizes| == 2 && Positive(psizes)
    requires RanksOf(order, |bufs|)
  {
    if order == [] then _ => None
    else
      var rank := order[|order| - 1];
      Put(Assembled(order[..|order| - 1], psizes, c, bufs), StartOf(rank, psizes, Counts(c)), Counts(c),
          Steps(c), bufs[rank], Origin(c))
  }

  lemma InteriorValue(c: Shape, buf: seq<int>, rank: int, i: int, j: int)
    requires ShapeOk(c) && IsBuffer(c, buf, rank) && 0 <= i < c.rows && 0 <= j < c.cols
    ensures At(buf, Address(c, i, j)) == Some(rank)
  {
    AddressIs(c, i, j);
    DigitsBelow(i + c.ghosts, c.rows + 2 * c.ghosts, j + c.ghosts, Width(c));
    DivUnique(Address(c, i, j), Width(c), i + c.ghosts, j + c.ghosts);
  }

  lemma LastWrite(v: Variable, psizes: seq<int>, c: Shape, buf: seq<int>, rank: int, cell: seq<int>)
    requires ShapeOk(c) && |psizes| == 2 && Positive(psizes) && |cell| == 2
    requires 0 <= rank < Prod(psizes) && IsBuffer(c, buf, rank)
    ensures Put(v, StartOf(rank, psizes, Counts(c)), Counts(c), Steps(c), buf, Origin(c))(cell) ==
      if InBox(cell, Times(Counts(c), psizes)) && Owner(cell, psizes, Counts(c)) == rank then Some(rank) else v(cell)
  {
    InBlockIffOwner(cell, psizes, Counts(c), rank);
    if InBlock(cell, StartOf(rank, psizes, Counts(c)), Counts(c)) {
      PutInside(v, c, buf, rank, StartOf(rank, psizes, Counts(c)), cell);
    }
  }

  lemma PutInside(v: Variable, c: Shape, buf: seq<int>, rank: int, starts: seq<int>, cell: seq<int>)
    requires ShapeOk(c) && IsBuffer(c, buf, rank) && |starts| == 2 && InBlock(cell, starts, Counts(c))
    ensures Put(v, starts, Counts(c), Steps(c), buf, Origin(c))(cell) == Some(rank)
  {
    var l := Minus(cell, starts);
    OffsetInside(cell, starts, c);
    InteriorValue(c, buf, rank, l[0], l[1]);
  }

  lemma OffsetInside(cell: seq<int>, starts: seq<int>, c: Shape)
    requires |cell| == |starts| == 2 && InBlock(cell, starts, Counts(c))
    ensures var l := Minus(cell, starts);
      l == [l[0], l[1]] && 0 <= l[0] < c.rows && 0 <= l[1] < c.cols
  {
  }

  lemma {:induction false} AssembledAt(order: seq<int>, psizes: seq<int>, c: Shape, bufs: seq<seq<int>>, cell: seq<int>)
    requires ShapeOk(c) && |psizes| == 2 && Positive(psizes) && |cell| == 2
    requires |bufs| == Prod(psizes) && forall r :: 0 <= r < |bufs| ==> IsBuffer(c, bufs[r], r)
    requires RanksOf(order, |bufs|)
    ensures Assembled(order, psizes, c, bufs)(cell) ==
      if InBox(cell, Times(Counts(c), psizes)) && Owner(cell, psizes, Counts(c)) in order
      then Some(Owner(cell, psizes, Counts(c))) else None
  {
    if order != [] {
      var before := order[..|order| - 1];
      assert order == before + [order[|order| - 1]];
      AssembledAt(before, psizes, c, bufs, cell);
      LastWrite(Assembled(before, psizes, c, bufs), psizes, c, bufs[order[|order| - 1]], order[|order| - 1], cell);
    }
  }

  /** Once every rank has written, in whatever order, each cell of the variable holds the rank
      whose block it is in, and no ghost cell has got into the file. */
  lemma FileHoldsOwners(order: seq<int>, psizes: seq<int>, c: Shape, bufs: seq<seq<int>>, cell: seq<int>)
    requires ShapeOk(c) && |psizes| == 2 && Positive(psizes) && |cell| == 2
    requires |bufs| == Prod(psizes) && forall r :: 0 <= r < |bufs| ==> IsBuffer(c, bufs[r], r)
    requires RanksOf(order, |bufs|) && EveryRank(order, |bufs|)
    ensures Assembled(order, psizes, c, bufs)(cell) ==
      if InBox(cell, Times(Counts(c), psizes)) then Some(Owner(cell, psizes, Counts(c))) else None
  {
    AssembledAt(order, psizes, c, bufs, cell);
    ProdPositive(psizes);
    if InBox(cell, Times(Counts(c), psizes)) { BlocksTile(cell, psizes, Counts(c), 0); }
  }
}
