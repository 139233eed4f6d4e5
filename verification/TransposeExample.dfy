/** The transposition programs: each rank fills a buffer with the row-major numbers of its block
    and writes it in every order of the dimensions. */
module TransposeExample {
  import opened NetCDF
  import opened Arithmetic
  import opened RankGrid
  import opened Transpose

  /** The variables, named by their dimensions from the slowest to the fastest. */
  datatype Layout = ZYX | ZXY | YZX | YXZ | XZY | XYZ

  /** For each dimension of the variable, the dimension of the array it is. */
  function Sigma(v: Layout): (s: seq<int>)
    ensures |s| == 3 && IsPerm(s)
  {
    var s := match v
      case ZYX => [0, 1, 2]
      case ZXY => [0, 2, 1]
      case YZX => [1, 0, 2]
      case YXZ => [1, 2, 0]
      case XZY => [2, 0, 1]
      case XYZ => [2, 1, 0];
    assert s[0] in s && s[1] in s && s[2] in s;
    s
  }

  function Counts(len: nat, n: nat): (c: seq<int>)
    requires len > 0
    ensures Positive(c)
  {
    seq(n, i => len + i)
  }

  lemma {:induction false} ProdAppend(s: seq<int>, x: int)
    ensures Prod(s + [x]) == Prod(s) * x
  {
    if s == [] {
      assert [x][1..] == [];
    } else {
      assert (s + [x])[1..] == s[1..] + [x];
      ProdAppend(s[1..], x);
    }
  }

  /** Sizes and block of a rank. */
  method Block(rank: nat, psizes: seq<int>, len: nat)
    returns (starts: seq<int>, counts: seq<int>, gsizes: seq<int>, bufsize: int)
    requires Positive(psizes) && rank < Prod(psizes) && len > 0
    ensures counts == Counts(len, |psizes|) && gsizes == Times(counts, psizes)
    ensures starts == StartOf(rank, psizes, counts) && bufsize == Prod(counts)
  {
    starts := GridPoint(rank, psizes);
    ghost var c, point := Counts(len, |psizes|), starts;
    counts, gsizes, bufsize := [], [], 1;
    for i := 0 to |psizes|
      invariant |starts| == |psizes| && |counts| == |gsizes| == i && bufsize == Prod(counts)
      invariant forall k :: 0 <= k < i ==> counts[k] == c[k] && gsizes[k] == c[k] * psizes[k] && starts[k] == point[k] * c[k]
      invariant forall k :: i <= k < |psizes| ==> starts[k] == point[k]
    {
      ProdAppend(counts, len + i);
      gsizes := gsizes + [(len + i) * psizes[i]];
      starts := starts[i := starts[i] * (len + i)];
      counts := counts + [len + i];
      bufsize := bufsize * (len + i);
    }
    assert counts == c;
    assert gsizes == Times(c, psizes) && starts == Times(point, c);
  }

  lemma CellValue(k: nat, j: nat, i: nat, starts: seq<int>, counts: seq<int>, gsizes: seq<int>)
    requires |starts| == |counts| == |gsizes| == 3 && Positive(counts)
    requires k < counts[0] && j < counts[1] && i < counts[2]
    ensures var at := k * (counts[1] * counts[2]) + j * counts[2] + i;
      0 <= at < |Local(starts, counts, gsizes)| && Local(starts, counts, gsizes)[at] ==
        (starts[0] + k) * (gsizes[1] * gsizes[2]) + (starts[1] + j) * gsizes[2] + (starts[2] + i)
  {
    Flat3([k, j, i], counts);
    LocalAt([k, j, i], starts, counts, gsizes);
    Flat3(Plus(starts, [k, j, i]), gsizes);
  }

  predicate Agree(a: seq<int>, b: seq<int>, n: int) {
    0 <= n <= |a| == |b| && a[..n] == b[..n]
  }

  /** The three loops that fill the buffer. */
  method Fill3(starts: seq<int>, counts: seq<int>, gsizes: seq<int>) returns (buf: array<int>)
    requires |starts| == |counts| == |gsizes| == 3 && Positive(counts)
    ensures fresh(buf) && buf[..] == Local(starts, counts, gsizes)
  {
    ProdPositive(counts);
    Prod3(counts);
    buf := new int[Prod(counts)];
    var c0, c1, c2 := counts[0], counts[1], counts[2];
    ghost var want := Local(starts, counts, gsizes);
    assert |want| == c0 * (c1 * c2);
    for k := 0 to c0
      invariant Agree(buf[..], want, k * (c1 * c2))
    {
      for j := 0 to c1
        invariant Agree(buf[..], want, k * (c1 * c2) + j * c2)
      {
        for i := 0 to c2
          invariant Agree(buf[..], want, k * (c1 * c2) + j * c2 + i)
        {
          CellValue(k, j, i, starts, counts, gsizes);
          buf[k * (c1 * c2) + j * c2 + i] :=
            (starts[0] + k) * (gsizes[1] * gsizes[2]) + (starts[1] + j) * gsizes[2] + (starts[2] + i);
        }
        assert k * (c1 * c2) + j * c2 + c2 == k * (c1 * c2) + (j + 1) * c2;
      }
      assert k * (c1 * c2) + c1 * c2 == (k + 1) * (c1 * c2);
    }
  }

  /** The starts, counts and memory map with which each variable is written. */
  function MapOf(v: Layout, s: seq<int>, c: seq<int>): (r: (seq<int>, seq<int>, seq<int>))
    requires |s| == |c| == 3
  {
    match v
    case ZYX => (s, c, [c[1] * c[2], c[2], 1])
    case ZXY => ([s[0], s[2], s[1]], [c[0], c[2], c[1]], [c[1] * c[2], 1, c[2]])
    case YZX => ([s[1], s[0], s[2]], [c[1], c[0], c[2]], [c[2], c[1] * c[2], 1])
    case YXZ => ([s[1], s[2], s[0]], [c[1], c[2], c[0]], [c[2], 1, c[1] * c[2]])
    case XZY => ([s[2], s[0], s[1]], [c[2], c[0], c[1]], [1, c[1] * c[2], c[2]])
    case XYZ => ([s[2], s[1], s[0]], [c[2], c[1], c[0]], [1, c[2], c[1] * c[2]])
  }

  lemma Strides3(c: seq<int>)
    requires |c| == 3
    ensures Strides(c) == [c[1] * c[2], c[2], 1]
  {
    Prod3(c);
    assert c[1..][1..] == c[2..] && c[2..][1..] == [];
    assert Strides(c[2..]) == [1] && Strides(c[1..]) == [c[2]] + Strides(c[2..]);
  }

  lemma Permuted3(v: Layout, x: seq<int>)
    requires |x| == 3
    ensures Permuted(x, Sigma(v)) == match v
      case ZYX => x
      case ZXY => [x[0], x[2], x[1]]
      case YZX => [x[1], x[0], x[2]]
      case YXZ => [x[1], x[2], x[0]]
      case XZY => [x[2], x[0], x[1]]
      case XYZ => [x[2], x[1], x[0]]
  {
  }

  /** All six are the same permutation of the starts, of the counts and of the strides. */
  lemma SixMaps(v: Layout, s: seq<int>, c: seq<int>)
    requires |s| == |c| == 3
    ensures MapOf(v, s, c) == (Permuted(s, Sigma(v)), Permuted(c, Sigma(v)), Permuted(Strides(c), Sigma(v)))
  {
    Permuted3(v, s);
    Permuted3(v, c);
    Permuted3(v, Strides(c));
    Strides3(c);
  }

  /** The write of one variable. */
  method PutVarm(v: Layout, s: seq<int>, c: seq<int>, buf: seq<int>, before: Variable) returns (after: Variable)
    requires |s| == |c| == 3
    ensures after == PutTransposed(before, Sigma(v), s, c, buf)
  {
    SixMaps(v, s, c);
    var (startsT, countsT, steps) := MapOf(v, s, c);
    after := Put(before, startsT, countsT, steps, buf, 0);
  }

  /** What a rank does to the six variables. */
  method RankWrites(rank: nat, psizes: seq<int>, len: nat, file: map<Layout, Variable>)
    returns (file': map<Layout, Variable>)
    requires |psizes| == 3 && Positive(psizes) && rank < Prod(psizes) && len > 0
    requires forall v: Layout :: v in file
    ensures var c := Counts(len, 3);
      var s := StartOf(rank, psizes, c);
      forall v: Layout :: v in file' && file'[v] == PutTransposed(file[v], Sigma(v), s, c, Local(s, c, Times(c, psizes)))
  {
    var starts, counts, gsizes, _ := Block(rank, psizes, len);
    var buf := Fill3(starts, counts, gsizes);
    var zyx := PutVarm(ZYX, starts, counts, buf[..], file[ZYX]);
    var zxy := PutVarm(ZXY, starts, counts, buf[..], file[ZXY]);
    var yzx := PutVarm(YZX, starts, counts, buf[..], file[YZX]);
    var yxz := PutVarm(YXZ, starts, counts, buf[..], file[YXZ]);
    var xzy := PutVarm(XZY, starts, counts, buf[..], file[XZY]);
    var xyz := PutVarm(XYZ, starts, counts, buf[..], file[XYZ]);
    file' := map[ZYX := zyx, ZXY := zxy, YZX := yzx, YXZ := yxz, XZY := xzy, XYZ := xyz];
    forall v: Layout ensures v in file' && file'[v] == PutTransposed(file[v], Sigma(v), starts, counts, buf[..]) {
      match v case ZYX => case ZXY => case YZX => case YXZ => case XZY => case XYZ =>
    }
  }

  /** A position is in the array exactly when its permutation is in the variable. */
  lemma PermutedInBox(x: seq<int>, g: seq<int>, sigma: seq<int>)
    requires IsPerm(sigma) && |x| == |g| == |sigma|
    ensures InBox(Permuted(x, sigma), Permuted(g, sigma)) <==> InBox(x, g)
  {
    if InBox(Permuted(x, sigma), Permuted(g, sigma)) {
      forall k | 0 <= k < |x| ensures 0 <= x[k] < g[k] {
        assert sigma[Place(sigma, k)] == k;
        assert 0 <= Permuted(x, sigma)[Place(sigma, k)] < Permuted(g, sigma)[Place(sigma, k)];
      }
    }
  }

  /** In each of the six variables the cell at (z, y, x), in the variable's own order of the
      dimensions, holds z, y, x's number in the global array. */
  lemma SixVariables(v: Layout, order: seq<int>, psizes: seq<int>, len: nat, z: int, y: int, x: int)
    requires |psizes| == 3 && Positive(psizes) && len > 0
    requires RanksOf(order, Prod(psizes)) && EveryRank(order, Prod(psizes))
    ensures var g := Times(Counts(len, 3), psizes);
      Assembled(order, Sigma(v), psizes, Counts(len, 3))(Permuted([z, y, x], Sigma(v))) ==
        if InBox([z, y, x], g) then Some(z * (g[1] * g[2]) + y * g[2] + x) else None
  {
    var g, at := Times(Counts(len, 3), psizes), [z, y, x];
    TransposedFile(order, Sigma(v), psizes, Counts(len, 3), Permuted(at, Sigma(v)));
    RestoredPermuted(Permuted(at, Sigma(v)), at, Sigma(v));
    PermutedInBox(at, g, Sigma(v));
    Flat3(at, g);
  }

  /** The order of the dimensions of the transposed variable in the two-dimensional program. */
  function Swap(): (s: seq<int>)
    ensures |s| == 2 && IsPerm(s) && s[0] == 1 && s[1] == 0
  {
    var s := [1, 0];
    assert s[0] in s && s[1] in s;
    s
  }

  lemma Swapped(a: int, b: int)
    ensures Permuted([a, b], Swap()) == [b, a]
  {
  }

  /** The read-back test of the two-dimensional program: whatever the other ranks have written so
      far, a rank that has written the transposed variable reads from every cell of its block what
      it expects there. */
  lemma ReadBackMatches(order: seq<int>, psizes: seq<int>, counts: seq<int>, rank: nat, y: int, x: int)
    requires |psizes| == |counts| == 2 && Positive(psizes) && Positive(counts)
    requires RanksOf(order, Prod(psizes)) && rank in order && rank < Prod(psizes)
    requires InBlock([y, x], StartOf(rank, psizes, counts), counts)
    ensures Assembled(order, Swap(), psizes, counts)([x, y]) == Some(x + Times(counts, psizes)[1] * y)
  {
    Swapped(y, x);
    OwnCell(order, Swap(), psizes, counts, rank, [y, x]);
    Flat2(y, x, Times(counts, psizes));
  }

  /** A rank that has written finds its own block right, whatever the others have done. */
  lemma OwnCell(order: seq<int>, sigma: seq<int>, psizes: seq<int>, counts: seq<int>, rank: nat, x: seq<int>)
    requires IsPerm(sigma) && Positive(psizes) && Positive(counts) && |psizes| == |counts| == |sigma| == |x|
    requires RanksOf(order, Prod(psizes)) && rank in order && rank < Prod(psizes)
    requires InBlock(x, StartOf(rank, psizes, counts), counts)
    ensures Assembled(order, sigma, psizes, counts)(Permuted(x, sigma)) == Some(Flat(x, Times(counts, psizes)))
  {
    RestoredPermuted(Permuted(x, sigma), x, sigma);
    AssembledAt(order, sigma, psizes, counts, Permuted(x, sigma));
    InBlockIffOwner(x, psizes, counts, rank);
  }

  lemma Flat2(y: int, x: int, sizes: seq<int>)
    requires |sizes| == 2
    ensures Flat([y, x], sizes) == x + sizes[1] * y
  {
    assert sizes[1..][1..] == [] && [y, x][1..] == [x] && [x][1..] == [];
    assert Flat([x], sizes[1..]) == x * Prod(sizes[1..][1..]) + Flat([], sizes[1..][1..]);
  }
}
