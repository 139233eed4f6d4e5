/** A nested derived datatype that reads an array in transposed order, against the transposition
    done by hand. */
module Permute {
  import opened Arithmetic
  import opened RankGrid

  const SIZEOF_DOUBLE := 8

  /** MPI's constructors; a vector's stride counts extents of the old type, an hvector's bytes. */
  datatype Type =
    | Double
    | Vector(count: nat, blocklen: nat, stride: nat, inner: Type)
    | Hvector(count: nat, blocklen: nat, stride: nat, inner: Type)

  function Shifted(m: seq<int>, dist: int): (r: seq<int>)
    ensures |r| == |m|
  {
    seq(|m|, x requires 0 <= x < |m| => m[x] + dist)
  }

  /** count copies of a type map, each stride further on. */
  function Repeated(count: nat, stride: int, m: seq<int>): seq<int> {
    if count == 0 then [] else Repeated(count - 1, stride, m) + Shifted(m, (count - 1) * stride)
  }

  function Lowest(m: seq<int>): int {
    if m == [] then 0 else if |m| == 1 || m[0] < Lowest(m[1..]) then m[0] else Lowest(m[1..])
  }

  function Highest(m: seq<int>): int {
    if m == [] then 0 else if |m| == 1 || m[0] > Highest(m[1..]) then m[0] else Highest(m[1..])
  }

  function Extent(m: seq<int>): int {
    if m == [] then 0 else Highest(m) + SIZEOF_DOUBLE - Lowest(m)
  }

  /** The displacements, in bytes, in the order in which the data are taken (MPI 3.1, section
      4.1.2). */
  function TypeMap(t: Type): seq<int> {
    match t
    case Double => [0]
    case Vector(count, blocklen, stride, inner) =>
      var m := TypeMap(inner);
      Repeated(count, stride * Extent(m), Repeated(blocklen, Extent(m), m))
    case Hvector(count, blocklen, stride, inner) =>
      var m := TypeMap(inner);
      Repeated(count, stride, Repeated(blocklen, Extent(m), m))
  }

  lemma {:induction false} RepeatedSize(count: nat, stride: int, m: seq<int>)
    ensures |Repeated(count, stride, m)| == count * |m|
  {
    if count > 0 { RepeatedSize(count - 1, stride, m); }
  }

  lemma {:induction false} RepeatedAt(count: nat, stride: int, m: seq<int>, i: nat, x: nat)
    requires i < count && x < |m|
    ensures |Repeated(count, stride, m)| == count * |m| && 0 <= i * |m| + x < count * |m|
    ensures Repeated(count, stride, m)[i * |m| + x] == m[x] + i * stride
  {
    RepeatedSize(count, stride, m);
    RepeatedSize(count - 1, stride, m);
    DigitsBelow(i, count, x, |m|);
    if i < count - 1 {
      RepeatedAt(count - 1, stride, m, i, x);
    }
  }

  lemma RepeatedOnce(stride: int, m: seq<int>)
    ensures Repeated(1, stride, m) == m
  {
  }

  /** The program's type for an array of ni * nj * nk: ni items across the faces, nk of these along
      a row, nj of these over the rows. */
  function Transposing(ni: nat, nj: nat, nk: nat): Type {
    Hvector(nj, 1, nk * SIZEOF_DOUBLE, Hvector(nk, 1, SIZEOF_DOUBLE, Vector(ni, 1, nj * nk, Double)))
  }

  /** With one item a block, an hvector repeats the inner map. */
  lemma HvectorMap(count: nat, stride: nat, inner: Type)
    ensures TypeMap(Hvector(count, 1, stride, inner)) == Repeated(count, stride, TypeMap(inner))
  {
    RepeatedOnce(Extent(TypeMap(inner)), TypeMap(inner));
  }

  lemma VectorMap(count: nat, stride: nat)
    ensures TypeMap(Vector(count, 1, stride, Double)) == Repeated(count, stride * SIZEOF_DOUBLE, [0])
  {
  }

  /** Item i of a vector, of item k of an hvector, of item j of an hvector. */
  lemma NestedAt(ni: nat, nj: nat, nk: nat, s1: nat, s2: nat, s3: nat, i: nat, j: nat, k: nat)
    requires i < ni && j < nj && k < nk
    ensures var m := Repeated(nj, s3, Repeated(nk, s2, Repeated(ni, s1, [0])));
      && |m| == nj * (nk * ni) && 0 <= j * (nk * ni) + (k * ni + i) < nj * (nk * ni)
      && m[j * (nk * ni) + (k * ni + i)] == i * s1 + k * s2 + j * s3
  {
    var one := Repeated(ni, s1, [0]);
    var two := Repeated(nk, s2, one);
    RepeatedAt(ni, s1, [0], i, 0);
    RepeatedAt(nk, s2, one, k, i);
    RepeatedAt(nj, s3, two, j, k * ni + i);
  }

  lemma Bytes(nj: nat, nk: nat, i: nat, j: nat, k: nat)
    ensures i * (nj * nk * 8) + k * 8 + j * (nk * 8) == 8 * (i * (nj * nk) + j * nk + k)
  {
  }

  /** Place i, j, k of the array comes at place j, k, i of the type map. */
  lemma MapAt(ni: nat, nj: nat, nk: nat, i: nat, j: nat, k: nat)
    requires i < ni && j < nj && k < nk
    ensures var m := TypeMap(Transposing(ni, nj, nk));
      && |m| == nj * (nk * ni) && 0 <= j * (nk * ni) + (k * ni + i) < nj * (nk * ni)
      && m[j * (nk * ni) + (k * ni + i)] == 8 * (i * (nj * nk) + j * nk + k)
  {
    var one := Vector(ni, 1, nj * nk, Double);
    var two := Hvector(nk, 1, SIZEOF_DOUBLE, one);
    VectorMap(ni, nj * nk);
    HvectorMap(nk, SIZEOF_DOUBLE, one);
    HvectorMap(nj, nk * SIZEOF_DOUBLE, two);
    NestedAt(ni, nj, nk, nj * nk * 8, 8, nk * 8, i, j, k);
    Bytes(nj, nk, i, j, k);
  }

  /* ---------------- the type against the loops ---------------- */

  function Sizes(ni: nat, nj: nat, nk: nat): seq<int> {
    [ni, nj, nk]
  }

  /** Where the n-th element of the array ends up in the transposed one. */
  function Moved(ni: nat, nj: nat, nk: nat, n: nat): (p: int)
    requires ni > 0 && nj > 0 && nk > 0
  {
    var at := Unflat(n, Sizes(ni, nj, nk));
    Flat([at[1], at[2], at[0]], Sizes(nj, nk, ni))
  }

  lemma MovedFacts(ni: nat, nj: nat, nk: nat, i: nat, j: nat, k: nat)
    requires i < ni && j < nj && k < nk
    ensures var n := i * (nj * nk) + j * nk + k;
      && 0 <= n < ni * nj * nk == Prod(Sizes(ni, nj, nk)) == Prod(Sizes(nj, nk, ni))
      && Unflat(n, Sizes(ni, nj, nk)) == [i, j, k]
      && Moved(ni, nj, nk, n) == j * (nk * ni) + k * ni + i
      && 0 <= Moved(ni, nj, nk, n) < ni * nj * nk
  {
    Flat3([i, j, k], Sizes(ni, nj, nk));
    Flat3([j, k, i], Sizes(nj, nk, ni));
    Prod3(Sizes(ni, nj, nk));
    Prod3(Sizes(nj, nk, ni));
    FlatInRange([i, j, k], Sizes(ni, nj, nk));
    FlatInRange([j, k, i], Sizes(nj, nk, ni));
    UnflatOfFlat([i, j, k], Sizes(ni, nj, nk));
    assert nj * nk * ni == ni * nj * nk;
  }

  lemma At(ni: nat, nj: nat, nk: nat, n: nat) returns (i: nat, j: nat, k: nat)
    requires ni > 0 && nj > 0 && nk > 0 && n < ni * nj * nk
    ensures i < ni && j < nj && k < nk && n == i * (nj * nk) + j * nk + k
  {
    Prod3(Sizes(ni, nj, nk));
    FlatOfUnflat(n, Sizes(ni, nj, nk));
    var at := Unflat(n, Sizes(ni, nj, nk));
    i, j, k := at[0], at[1], at[2];
    assert at == [i, j, k];
    Flat3(at, Sizes(ni, nj, nk));
  }

  lemma MovedInjective(ni: nat, nj: nat, nk: nat, n: nat, m: nat)
    requires ni > 0 && nj > 0 && nk > 0 && n < ni * nj * nk && m < ni * nj * nk
    ensures 0 <= Moved(ni, nj, nk, n) < ni * nj * nk
    ensures Moved(ni, nj, nk, n) == Moved(ni, nj, nk, m) ==> n == m
  {
    var i, j, k := At(ni, nj, nk, n);
    var i', j', k' := At(ni, nj, nk, m);
    MovedFacts(ni, nj, nk, i, j, k);
    MovedFacts(ni, nj, nk, i', j', k');
    if Moved(ni, nj, nk, n) == Moved(ni, nj, nk, m) {
      UnflatOfFlat([j, k, i], Sizes(nj, nk, ni));
      UnflatOfFlat([j', k', i'], Sizes(nj, nk, ni));
      assert [j, k, i] == [j', k', i'];
    }
  }

  /** The map takes element n at its place in the transposed array, for every n. */
  ghost predicate Moves(ni: nat, nj: nat, nk: nat, m: seq<int>)
    requires ni > 0 && nj > 0 && nk > 0
  {
    && |m| == ni * nj * nk
    && (forall n: nat :: n < |m| ==>
          0 <= Moved(ni, nj, nk, n) < |m| && m[Moved(ni, nj, nk, n)] == SIZEOF_DOUBLE * n)
  }

  lemma Volume(ni: nat, nj: nat, nk: nat)
    ensures nj * (nk * ni) == ni * nj * nk
  {
  }

  /** The program's type is such a map: a permutation of the array. */
  lemma TypeMapMoves(ni: nat, nj: nat, nk: nat)
    requires ni > 0 && nj > 0 && nk > 0
    ensures Moves(ni, nj, nk, TypeMap(Transposing(ni, nj, nk)))
  {
    var m := TypeMap(Transposing(ni, nj, nk));
    Volume(ni, nj, nk);
    MapAt(ni, nj, nk, 0, 0, 0);
    forall n: nat | n < |m|
      ensures 0 <= Moved(ni, nj, nk, n) < |m| && m[Moved(ni, nj, nk, n)] == SIZEOF_DOUBLE * n
    {
      var i, j, k := At(ni, nj, nk, n);
      MovedFacts(ni, nj, nk, i, j, k);
      MapAt(ni, nj, nk, i, j, k);
    }
  }

  /** What is written with the type: the data in the order of its map. */
  function Packed(data: seq<int>, m: seq<int>): (r: seq<int>)
    ensures |r| == |m|
  {
    seq(|m|, p requires 0 <= p < |m| =>
      if 0 <= m[p] / SIZEOF_DOUBLE < |data| then data[m[p] / SIZEOF_DOUBLE] else -1)
  }

  lemma MovedOnto(ni: nat, nj: nat, nk: nat, size: nat, p: nat) returns (n: nat)
    requires ni > 0 && nj > 0 && nk > 0 && p < size == ni * nj * nk
    ensures n < size && Moved(ni, nj, nk, n) == p
  {
    forall x: nat | x < size ensures 0 <= Moved(ni, nj, nk, x) < size { MovedInjective(ni, nj, nk, x, x); }
    var s: seq<nat> := seq(size, x requires 0 <= x < size => Moved(ni, nj, nk, x));
    forall i, j | 0 <= i < j < size ensures s[i] != s[j] { MovedInjective(ni, nj, nk, i, j); }
    Pigeonhole(s, p);
    n :| n < size && s[n] == p;
  }

  /** Every element of a copy is where such a map would have taken it. */
  lemma CopyIsPacked(ni: nat, nj: nat, nk: nat, data: seq<int>, copy: seq<int>, m: seq<int>)
    requires ni > 0 && nj > 0 && nk > 0 && Moves(ni, nj, nk, m)
    requires Done(ni, nj, nk, data, copy, |m|)
    ensures copy == Packed(data, m)
  {
    forall p: nat | p < |copy| ensures copy[p] == Packed(data, m)[p] {
      var n := MovedOnto(ni, nj, nk, |m|, p);
      assert copy[Moved(ni, nj, nk, n)] == data[n];
    }
  }

  function Place(nj: nat, nk: nat, i: nat, j: nat, k: nat): int {
    i * (nj * nk) + j * nk + k
  }

  lemma Places(ni: nat, nj: nat, nk: nat, i: nat, j: nat)
    ensures Place(nj, nk, 0, 0, 0) == 0 && Place(nj, nk, ni, 0, 0) == ni * nj * nk
    ensures Place(nj, nk, i, nj, 0) == Place(nj, nk, i + 1, 0, 0)
    ensures Place(nj, nk, i, j, nk) == Place(nj, nk, i, j + 1, 0)
  {
  }

  /** One round of the innermost loop. */
  method FillOne(ni: nat, nj: nat, nk: nat, i: nat, j: nat, k: nat, data: array<int>, transposed: array<int>)
    requires i < ni && j < nj && k < nk && data != transposed
    requires Done(ni, nj, nk, data[..], transposed[..], Place(nj, nk, i, j, k))
    modifies data, transposed
    ensures Done(ni, nj, nk, data[..], transposed[..], Place(nj, nk, i, j, k + 1))
  {
    ghost var d, t := data[..], transposed[..];
    MovedFacts(ni, nj, nk, i, j, k);
    data[i * (nj * nk) + j * nk + k] := 100 * i * nj * nk + 10 * j * nk + k;
    transposed[j * (nk * ni) + k * ni + i] := 100 * i * nj * nk + 10 * j * nk + k;
    DoneNext(ni, nj, nk, d, t, data[..], transposed[..], i, j, k);
  }

  /** The loops that fill the array and transpose it by hand. */
  method FillBoth(ni: nat, nj: nat, nk: nat) returns (data: array<int>, transposed: array<int>)
    requires ni > 0 && nj > 0 && nk > 0
    ensures Done(ni, nj, nk, data[..], transposed[..], Place(nj, nk, ni, 0, 0))
  {
    MovedFacts(ni, nj, nk, 0, 0, 0);
    data, transposed := new int[ni * nj * nk], new int[ni * nj * nk];
    Places(ni, nj, nk, 0, 0);
    for i := 0 to ni
      invariant Done(ni, nj, nk, data[..], transposed[..], Place(nj, nk, i, 0, 0))
    {
      for j := 0 to nj
        invariant Done(ni, nj, nk, data[..], transposed[..], Place(nj, nk, i, j, 0))
      {
        for k := 0 to nk
          invariant Done(ni, nj, nk, data[..], transposed[..], Place(nj, nk, i, j, k))
        {
          FillOne(ni, nj, nk, i, j, k, data, transposed);
        }
        Places(ni, nj, nk, i, j);
      }
      Places(ni, nj, nk, i, 0);
    }
  }

  /** The result is what the derived type reads out of the array. */
  method TransposeByHand(ni: nat, nj: nat, nk: nat) returns (data: array<int>, transposed: array<int>)
    requires ni > 0 && nj > 0 && nk > 0
    ensures data.Length == ni * nj * nk
    ensures forall n: nat :: n < data.Length ==> data[n] == Value(ni, nj, nk, n)
    ensures transposed[..] == Packed(data[..], TypeMap(Transposing(ni, nj, nk)))
  {
    data, transposed := FillBoth(ni, nj, nk);
    Places(ni, nj, nk, 0, 0);
    TypeMapMoves(ni, nj, nk);
    CopyIsPacked(ni, nj, nk, data[..], transposed[..], TypeMap(Transposing(ni, nj, nk)));
  }

  /** The value of the n-th element. */
  function Value(ni: nat, nj: nat, nk: nat, n: nat): int
    requires ni > 0 && nj > 0 && nk > 0
  {
    var at := Unflat(n, Sizes(ni, nj, nk));
    100 * at[0] * nj * nk + 10 * at[1] * nk + at[2]
  }

  /** The first n elements have been filled in and moved. */
  ghost predicate Done(ni: nat, nj: nat, nk: nat, d: seq<int>, t: seq<int>, n: int) {
    && ni > 0 && nj > 0 && nk > 0 && 0 <= n <= |d| == |t| == ni * nj * nk
    && (forall m: nat {:trigger d[m]} :: m < n ==> d[m] == Value(ni, nj, nk, m))
    && (forall m: nat {:trigger d[m]} :: m < n ==>
          0 <= Moved(ni, nj, nk, m) < |t| && t[Moved(ni, nj, nk, m)] == d[m])
  }

  lemma DoneNext(ni: nat, nj: nat, nk: nat, d: seq<int>, t: seq<int>, d': seq<int>, t': seq<int>, i: nat, j: nat, k: nat)
    requires i < ni && j < nj && k < nk
    requires var n := i * (nj * nk) + j * nk + k;
      Done(ni, nj, nk, d, t, n) && n < |d| && 0 <= Moved(ni, nj, nk, n) < |t| &&
      d' == d[n := 100 * i * nj * nk + 10 * j * nk + k] &&
      t' == t[Moved(ni, nj, nk, n) := 100 * i * nj * nk + 10 * j * nk + k]
    ensures Done(ni, nj, nk, d', t', i * (nj * nk) + j * nk + k + 1)
  {
    var n := i * (nj * nk) + j * nk + k;
    MovedFacts(ni, nj, nk, i, j, k);
    forall m: nat | m < n + 1
      ensures d'[m] == Value(ni, nj, nk, m)
      ensures 0 <= Moved(ni, nj, nk, m) < |t'| && t'[Moved(ni, nj, nk, m)] == d'[m]
    {
      assert m < n ==> d[m] == d'[m];
      MovedInjective(ni, nj, nk, m, n);
    }
  }
}
