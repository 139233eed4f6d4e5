/** Two datatypes for one view of a two-dimensional array: a subarray, and a list of rows whose
    displacements a loop computes, each from the one before. */
module SameView {
  import opened Arithmetic

  const SIZEOF_INT := 4

  /** Bytes of n elements that follow one another. */
  function Run(from: int, n: nat): (m: seq<int>)
    ensures |m| == n && forall j :: 0 <= j < n ==> m[j] == from + SIZEOF_INT * j
  {
    seq(n, j => from + SIZEOF_INT * j)
  }

  /** Type map of MPI_Type_create_subarray in C order: the first rows of the subarray, in an array
      of `width` elements a row. */
  function Subarray(width: nat, rows: nat, cols: nat, row0: nat, col0: nat): seq<int> {
    if rows == 0 then []
    else Subarray(width, rows - 1, cols, row0, col0) + Run(SIZEOF_INT * ((row0 + rows - 1) * width + col0), cols)
  }

  /** Type map of MPI_Type_create_hindexed: block after block. */
  function Hindexed(lengths: seq<nat>, displacements: seq<int>): seq<int>
    requires |lengths| == |displacements|
  {
    if lengths == [] then []
    else
      var n := |lengths| - 1;
      Hindexed(lengths[..n], displacements[..n]) + Run(displacements[n], lengths[n])
  }

  lemma {:induction false} SameMaps(ny: nat, nx: nat, nprocs: nat, rank: nat, lengths: seq<nat>, displacements: seq<int>)
    requires |lengths| == |displacements| == ny
    requires forall i :: 0 <= i < ny ==> lengths[i] == nx
    requires forall i :: 0 <= i < ny ==> displacements[i] == SIZEOF_INT * (i * (nx * nprocs) + nx * rank)
    ensures nx * nprocs >= 0 && nx * rank >= 0
    ensures Hindexed(lengths, displacements) == Subarray(nx * nprocs, ny, nx, 0, nx * rank)
  {
    MulMono(0, nprocs, nx);
    MulMono(0, rank, nx);
    if ny > 0 {
      SameMaps(ny - 1, nx, nprocs, rank, lengths[..ny - 1], displacements[..ny - 1]);
    }
  }

  /** The loop, and the view that results: a rank's block of nx columns, all ny rows of it. */
  method RowBlocks(ny: nat, nx: nat, nprocs: nat, rank: nat) returns (lengths: array<nat>, displacements: array<int>)
    requires ny > 0
    ensures lengths.Length == displacements.Length == ny
    ensures nx * nprocs >= 0 && nx * rank >= 0
    ensures Hindexed(lengths[..], displacements[..]) == Subarray(nx * nprocs, ny, nx, 0, nx * rank)
  {
    lengths := new nat[ny];
    for i := 0 to ny
      invariant forall k :: 0 <= k < i ==> lengths[k] == nx
    {
      lengths[i] := nx;
    }
    displacements := new int[ny];
    displacements[0] := nx * rank * SIZEOF_INT;
    assert displacements[0] == SIZEOF_INT * (0 * (nx * nprocs) + nx * rank);
    for i := 1 to ny
      invariant forall k :: 0 <= k < ny ==> lengths[k] == nx
      invariant forall k :: 0 <= k < i ==> displacements[k] == SIZEOF_INT * (k * (nx * nprocs) + nx * rank)
    {
      displacements[i] := displacements[i - 1] + nx * nprocs * SIZEOF_INT;
      NextRow(i, nx * nprocs, nx * rank);
    }
    SameMaps(ny, nx, nprocs, rank, lengths[..], displacements[..]);
  }

  lemma NextRow(i: int, width: int, col0: int)
    ensures SIZEOF_INT * (i * width + col0) == SIZEOF_INT * ((i - 1) * width + col0) + width * SIZEOF_INT
  {
  }

  lemma InRow(width: nat, row: nat, cols: nat, col0: nat, x: nat)
    requires width > 0 && col0 + cols <= width
    ensures SIZEOF_INT * x in Run(SIZEOF_INT * (row * width + col0), cols)
       <==> x / width == row && col0 <= x % width < col0 + cols
  {
    var m := Run(SIZEOF_INT * (row * width + col0), cols);
    DivMod(x, width);
    if SIZEOF_INT * x in m {
      var j :| 0 <= j < cols && m[j] == SIZEOF_INT * x;
      DivUnique(x, width, row, col0 + j);
    }
    if x / width == row && col0 <= x % width < col0 + cols {
      assert m[x % width - col0] == SIZEOF_INT * x;
    }
  }

  lemma {:induction false} InSubarray(width: nat, rows: nat, cols: nat, col0: nat, x: nat)
    requires width > 0 && col0 + cols <= width
    ensures SIZEOF_INT * x in Subarray(width, rows, cols, 0, col0)
       <==> x / width < rows && col0 <= x % width < col0 + cols
  {
    DivMod(x, width);
    if rows > 0 {
      InSubarray(width, rows - 1, cols, col0, x);
      InRow(width, rows - 1, cols, col0, x);
    }
  }

  /** The views of all ranks tile the array: an element is in the view of the rank whose columns it
      lies in, and in no other. */
  lemma ViewsTile(ny: nat, nx: nat, nprocs: nat, rank: nat, x: nat)
    requires nx > 0 && rank < nprocs && x < ny * (nx * nprocs)
    ensures nx * nprocs > 0 && nx * rank >= 0
    ensures SIZEOF_INT * x in Subarray(nx * nprocs, ny, nx, 0, nx * rank) <==> rank == x % (nx * nprocs) / nx
  {
    var width := nx * nprocs;
    MulMono(1, nprocs, nx);
    MulMono(0, rank, nx);
    MulMono(rank + 1, nprocs, nx);
    DivMod(x, width);
    DivBelow(x, ny, width);
    InSubarray(width, ny, nx, nx * rank, x);
    Column(nx, rank, x % width);
  }

  lemma Column(nx: nat, rank: nat, c: nat)
    requires nx > 0
    ensures nx * rank <= c < nx * rank + nx <==> rank == c / nx
  {
    DivMod(c, nx);
    if nx * rank <= c < nx * rank + nx { DivUnique(c, nx, rank, c - nx * rank); }
  }
}
