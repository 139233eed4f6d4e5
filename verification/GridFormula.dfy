/** The grid formula (rank % p0, (rank / p1) % p1) that some programs use in place of a row-major
    one, and exactly when it gives every rank a grid point of its own. */
module GridFormula {
  import opened Arithmetic

  function Point(rank: nat, p0: nat, p1: nat): (int, int)
    requires p0 > 0 && p1 > 0
  {
    (rank % p0, rank / p1 % p1)
  }

  ghost predicate Injective(p0: nat, p1: nat)
    requires p0 > 0 && p1 > 0
  {
    forall r: nat, s: nat :: r < s < p0 * p1 ==> Point(r, p0, p1) != Point(s, p0, p1)
  }

  /** No common divisor but one. */
  ghost predicate Coprime(a: nat, b: nat) {
    forall d: nat :: d > 1 && a % d == 0 ==> b % d != 0
  }

  ghost predicate Good(p0: nat, p1: nat)
    requires p1 > 0
  {
    p0 % p1 == 0 && Coprime(p0 / p1, p1)
  }

  /* ---------------- divisibility ---------------- */

  lemma Multiple(q: nat, d: nat)
    requires d > 0
    ensures q * d % d == 0 && q * d / d == q
  {
    DivUnique(q * d, d, q, 0);
  }

  lemma ModOfSum(x: nat, q: nat, t: nat)
    requires t > 0
    ensures (x + q * t) % t == x % t
  {
    DivMod(x, t);
    MulMono(0, q, t);
    assert x + q * t == (x / t + q) * t + x % t by { assert (x / t + q) * t == x / t * t + q * t; }
    DivUnique(x + q * t, t, x / t + q, x % t);
  }

  /** Numbers with the same remainder differ by a multiple. */
  lemma SameMod(x: nat, y: nat, t: nat) returns (q: nat)
    requires t > 0 && x <= y && x % t == y % t
    ensures y - x == q * t
  {
    DivMod(x, t);
    DivMod(y, t);
    if y / t < x / t { MulMono(y / t + 1, x / t, t); }
    q := y / t - x / t;
  }

  /** p divides d * m. */
  predicate Hits(d: nat, m: nat, p: nat)
    requires p > 0
  {
    d * m % p == 0
  }

  /** The smallest positive number that hits, from d on. */
  function Order(m: nat, p: nat, d: nat): (r: nat)
    requires p > 0 && 0 < d <= p && Hits(p, m, p)
    requires forall e: nat :: 0 < e < d ==> !Hits(e, m, p)
    ensures 0 < r <= p && Hits(r, m, p)
    ensures forall e: nat :: 0 < e < r ==> !Hits(e, m, p)
    decreases p - d
  {
    if Hits(d, m, p) then d else Order(m, p, d + 1)
  }

  lemma ProductOfRemainder(p: nat, e: nat, d: nat, r: nat, m: nat, t: nat)
    requires p == e * d + r && d * m == t * p
    ensures r * m == (m - e * t) * p
  {
  }

  lemma HitsOf(r: nat, m: nat, p: nat, q: int)
    requires p > 0 && r * m == q * p
    ensures Hits(r, m, p)
  {
    if q < 0 { MulMono(q, -1, p); MulMono(0, r, m); }
    Multiple(q, p);
  }

  /** The smallest number that hits divides p. */
  lemma OrderDivides(m: nat, p: nat, d: nat, e: nat, r: nat, t: nat)
    requires p > 0 && Hits(d, m, p) && forall x: nat :: 0 < x < d ==> !Hits(x, m, p)
    requires p == e * d + r && r < d && d * m == t * p
    ensures r == 0
  {
    RemainderHits(p, e, d, r, m, t);
  }

  lemma RemainderHits(p: nat, e: nat, d: nat, r: nat, m: nat, t: nat)
    requires p > 0 && p == e * d + r && d * m == t * p
    ensures Hits(r, m, p)
  {
    ProductOfRemainder(p, e, d, r, m, t);
    HitsOf(r, m, p, m - e * t);
  }

  lemma Cofactor(p: nat, e: nat, d: nat, m: nat, t: nat)
    requires d > 0 && p > 0 && p == e * d && d * m == t * p
    ensures m == t * e && e > 0
  {
  }

  /** If p divides k * m, shares no divisor with m, and k is below p, then k is zero. */
  lemma CoprimeDivides(k: nat, m: nat, p: nat)
    requires p > 0 && Coprime(m, p) && k < p && Hits(k, m, p)
    ensures k == 0
  {
    Multiple(m, p);
    var d := Order(m, p, 1);
    var e, r, t := p / d, p % d, d * m / p;
    DivMod(p, d);
    DivMod(d * m, p);
    OrderDivides(m, p, d, e, r, t);
    Cofactor(p, e, d, m, t);
    Multiple(t, e);
    Multiple(d, e);
    assert e <= 1;
  }

  /* ---------------- the condition suffices ---------------- */

  lemma GoodIsInjective(p0: nat, p1: nat, r: nat, s: nat)
    requires p0 > 0 && p1 > 0 && Good(p0, p1) && r < s < p0 * p1
    ensures Point(r, p0, p1) != Point(s, p0, p1)
  {
    if Point(r, p0, p1) == Point(s, p0, p1) {
      var m := p0 / p1;
      DivMod(p0, p1);
      var q := SameMod(r, s, p0);
      FewRows(q, p0, p1, s);
      assert q * p0 == q * m * p1 by { assert q * p0 == q * (m * p1); }
      MulMono(0, q, m);
      QuotientOfSum(r, q * m, p1);
      DivMod(r, p1);
      var t := SameMod(r / p1, r / p1 + q * m, p1);
      HitsOf(q, m, p1, t);
      CoprimeDivides(q, m, p1);
    }
  }

  lemma FewRows(q: nat, p0: nat, p1: nat, s: nat)
    requires p0 > 0 && q * p0 <= s < p0 * p1
    ensures q < p1
  {
  }

  lemma QuotientOfSum(x: nat, q: nat, t: nat)
    requires t > 0
    ensures (x + q * t) / t == x / t + q
  {
    DivMod(x, t);
    assert (x / t + q) * t == x / t * t + q * t;
    DivUnique(x + q * t, t, x / t + q, x % t);
  }

  /* ---------------- the condition is needed ---------------- */

  /** More columns than rows: ranks 0 and p0 collide. */
  lemma WideFails(p0: nat, p1: nat)
    requires 0 < p0 < p1
    ensures 0 < p0 < p0 * p1 && Point(0, p0, p1) == Point(p0, p0, p1)
  {
    MulMono(2, p1, p0);
    Multiple(1, p0);
    DivUnique(p0, p1, 0, p0);
    DivUnique(0, p1, 0, 0);
    DivUnique(0, p0, 0, 0);
  }

  /** A common divisor: rank 0 collides with the start of a later row. */
  lemma CommonDivisorFails(p0: nat, p1: nat, m: nat, d: nat) returns (r: nat)
    requires p1 > 0 && p0 > 0 && p0 == m * p1 && d > 1 && m % d == 0 && p1 % d == 0
    ensures 0 < r < p0 * p1 && Point(0, p0, p1) == Point(r, p0, p1)
  {
    var c, m' := p1 / d, m / d;
    DivMod(p1, d);
    DivMod(m, d);
    MulMono(2, d, c);
    r := c * p0;
    MulMono(c + 1, p1, p0);
    MulMono(1, c, p0);
    Multiple(c, p0);
    assert c * m == m' * p1 by { assert c * (m' * d) == m' * (c * d); }
    assert r == c * m * p1 by { assert c * (m * p1) == c * m * p1; }
    MulMono(0, c, m);
    Multiple(c * m, p1);
    Multiple(m', p1);
    DivUnique(0, p1, 0, 0);
    DivUnique(0, p0, 0, 0);
  }

  /** Second coordinate of the rank in row a and column b of a row-major grid. */
  function Second(p0: nat, p1: nat, b: nat, a: nat): (v: nat)
    requires p1 > 0
    ensures v < p1
  {
    (a * p0 + b) / p1 % p1
  }

  /** Ranks of one column share their first coordinate, so their second ones must differ. */
  lemma ColumnsInjective(p0: nat, p1: nat, b: nat, a: nat, a': nat)
    requires p0 > 0 && p1 > 0 && Injective(p0, p1) && b < p0 && a < p1 && a' < p1
    requires Second(p0, p1, b, a) == Second(p0, p1, b, a')
    ensures a == a'
  {
    var r, s := a * p0 + b, a' * p0 + b;
    DigitsBelow(a, p1, b, p0);
    DigitsBelow(a', p1, b, p0);
    DivUnique(r, p0, a, b);
    DivUnique(s, p0, a', b);
    assert Point(r, p0, p1) == Point(s, p0, p1);
    assert r == s;
  }

  function Column(p0: nat, p1: nat, b: nat): (s: seq<nat>)
    requires p1 > 0
    ensures |s| == p1 && forall a: nat :: a < p1 ==> s[a] == Second(p0, p1, b, a)
  {
    seq(p1, a requires 0 <= a => Second(p0, p1, b, a))
  }

  /** A column takes every second coordinate. */
  lemma ColumnOnto(p0: nat, p1: nat, b: nat, y: nat) returns (a: nat)
    requires p0 > 0 && p1 > 0 && Injective(p0, p1) && b < p0 && y < p1
    ensures a < p1 && Second(p0, p1, b, a) == y
  {
    var s := Column(p0, p1, b);
    forall i, j | 0 <= i < j < p1 ensures s[i] != s[j] {
      if s[i] == s[j] { ColumnsInjective(p0, p1, b, i, j); }
    }
    Pigeonhole(s, y);
    a :| a < p1 && s[a] == y;
  }

  /** The rows in which columns p1 - 1 and p1 differ. */
  predicate Steps(p0: nat, p1: nat, a: nat)
    requires p1 > 0
  {
    a * p0 % p1 == 0
  }

  lemma NeighbourColumns(p0: nat, p1: nat, a: nat)
    requires p1 > 0
    ensures Second(p0, p1, p1, a) ==
      if Steps(p0, p1, a) then (Second(p0, p1, p1 - 1, a) + 1) % p1 else Second(p0, p1, p1 - 1, a)
  {
    var x := a * p0;
    MulMono(0, a, p0);
    DivMod(x, p1);
    var q, r := x / p1, x % p1;
    assert (q + 1) * p1 == q * p1 + p1;
    DivUnique(x + p1, p1, q + 1, r);
    if r == 0 {
      DivUnique(x + p1 - 1, p1, q, p1 - 1);
      NextMod(q, p1);
    } else {
      DivUnique(x + p1 - 1, p1, q + 1, r - 1);
    }
  }

  lemma NextMod(q: nat, t: nat)
    requires t > 0
    ensures (q + 1) % t == (q % t + 1) % t
  {
    DivMod(q, t);
    ModOfSum(q % t + 1, q / t, t);
  }

  /** Starting from row 0, the rows that step carry every value: stepping from one leads to
      another. */
  lemma {:induction false} SteppingRows(p0: nat, p1: nat, n: nat) returns (a: nat)
    requires 0 < p1 < p0 && Injective(p0, p1)
    ensures a < p1 && Steps(p0, p1, a)
    ensures Second(p0, p1, p1 - 1, a) == (Second(p0, p1, p1 - 1, 0) + n) % p1
  {
    var u0 := Second(p0, p1, p1 - 1, 0);
    if n == 0 {
      a := 0;
      DivUnique(0, p1, 0, 0);
      DivUnique(u0, p1, 0, u0);
      assert Steps(p0, p1, 0) by { assert 0 * p0 == 0; }
    } else {
      var b := SteppingRows(p0, p1, n - 1);
      NeighbourColumns(p0, p1, b);
      NextMod(u0 + n - 1, p1);
      a := ColumnOnto(p0, p1, p1 - 1, (u0 + n) % p1);
      NeighbourColumns(p0, p1, a);
      if !Steps(p0, p1, a) { ColumnsInjective(p0, p1, p1, a, b); }
    }
  }

  lemma RaggedFails(p0: nat, p1: nat)
    requires 0 < p1 < p0 && p0 % p1 != 0
    ensures !Injective(p0, p1)
  {
    if Injective(p0, p1) {
      var u0, u1 := Second(p0, p1, p1 - 1, 0), Second(p0, p1, p1 - 1, 1);
      Multiple(p0, 1);
      assert Steps(p0, p1, 1) == (p0 % p1 == 0) by { assert 1 * p0 == p0; }
      var a := SteppingRows(p0, p1, u1 + p1 - u0);
      ModOfSum(u1, 1, p1);
      DivUnique(u1, p1, 0, u1);
      ColumnsInjective(p0, p1, p1 - 1, a, 1);
    }
  }

  /** The formula gives every rank a grid point of its own if and only if p1 divides p0 and shares
      no divisor with the quotient. */
  lemma InjectiveIff(p0: nat, p1: nat)
    requires p0 > 0 && p1 > 0
    ensures Injective(p0, p1) <==> Good(p0, p1)
  {
    if Good(p0, p1) {
      forall r: nat, s: nat | r < s < p0 * p1 ensures Point(r, p0, p1) != Point(s, p0, p1) {
        GoodIsInjective(p0, p1, r, s);
      }
    } else if p0 < p1 {
      WideFails(p0, p1);
    } else if p0 % p1 != 0 {
      if p0 == p1 { Multiple(1, p1); }
      RaggedFails(p0, p1);
    } else {
      DivMod(p0, p1);
      var d: nat :| d > 1 && p0 / p1 % d == 0 && p1 % d == 0;
      var r := CommonDivisorFails(p0, p1, p0 / p1, d);
    }
  }

  /* ---------------- what follows for the programs ---------------- */

  /** Exactly one rank at each point of the grid. */
  ghost predicate Tiles(p0: nat, p1: nat)
    requires p0 > 0 && p1 > 0
  {
    && (forall x: nat, y: nat :: x < p0 && y < p1 ==> exists r: nat :: r < p0 * p1 && Point(r, p0, p1) == (x, y))
    && Injective(p0, p1)
  }

  function Number(r: nat, p0: nat, p1: nat): (n: nat)
    requires p0 > 0 && p1 > 0
    ensures n == Point(r, p0, p1).0 * p1 + Point(r, p0, p1).1 < p0 * p1
  {
    DigitsBelow(r % p0, p0, r / p1 % p1, p1);
    r % p0 * p1 + r / p1 % p1
  }

  lemma SamePoint(r: nat, p0: nat, p1: nat, x: nat, y: nat)
    requires p0 > 0 && x < p0 && y < p1 && Number(r, p0, p1) == x * p1 + y
    ensures Point(r, p0, p1) == (x, y)
  {
    SameDigits(p1, r % p0, r / p1 % p1, x, y);
  }

  /** The blocks of all ranks tile the array exactly when the condition holds. */
  lemma TilesIff(p0: nat, p1: nat)
    requires p0 > 0 && p1 > 0
    ensures Tiles(p0, p1) <==> Good(p0, p1)
  {
    InjectiveIff(p0, p1);
    if Good(p0, p1) {
      var n := p0 * p1;
      var s := seq(n, r requires 0 <= r => Number(r, p0, p1));
      forall i, j | 0 <= i < j < n ensures s[i] != s[j] {
        if s[i] == s[j] { SamePoint(i, p0, p1, j % p0, j / p1 % p1); }
      }
      forall x: nat, y: nat | x < p0 && y < p1 ensures exists r: nat :: r < n && Point(r, p0, p1) == (x, y) {
        DigitsBelow(x, p0, y, p1);
        Pigeonhole(s, x * p1 + y);
        var r: nat :| r < n && s[r] == x * p1 + y;
        SamePoint(r, p0, p1, x, y);
      }
    }
  }

  lemma CoprimeWithOne(p: nat)
    requires p > 0
    ensures Coprime(1, p) && Coprime(p, 1)
  {
  }

  /** Square grids are among the good ones, and so is a single column. */
  lemma SquareTiles(p: nat)
    requires p > 0
    ensures Tiles(p, p) && Tiles(p, 1)
  {
    Multiple(1, p);
    Multiple(p, 1);
    CoprimeWithOne(p);
    TilesIff(p, p);
    TilesIff(p, 1);
  }

  /** In a grid of three by two, ranks 1 and 4 share a block. */
  lemma ThreeByTwoFails()
    ensures Point(1, 3, 2) == Point(4, 3, 2) && !Tiles(3, 2)
  {
  }

  /** The formula of the three-dimensional program. */
  function Point3(rank: nat, p0: nat, p1: nat, p2: nat): (int, int, int)
    requires p0 > 0 && p1 > 0 && p2 > 0 && p0 * p1 > 0
  {
    (rank % p0, rank / p1 % p1, rank / (p0 * p1) % p2)
  }

  ghost predicate Injective3(p0: nat, p1: nat, p2: nat)
    requires p0 > 0 && p1 > 0 && p2 > 0 && p0 * p1 > 0
  {
    forall r: nat, s: nat :: r < s < p0 * p1 * p2 ==> Point3(r, p0, p1, p2) != Point3(s, p0, p1, p2)
  }

  lemma Plane(r: nat, p0: nat, p1: nat, p2: nat)
    requires p0 > 0 && p1 > 0 && p2 > 0 && p0 * p1 > 0 && r < p0 * p1 * p2
    ensures Point3(r, p0, p1, p2).2 == r / (p0 * p1) < p2
  {
    DivMod(r, p0 * p1);
    assert r < p2 * (p0 * p1);
    DivBelow(r, p2, p0 * p1);
    DivUnique(r / (p0 * p1), p2, 0, r / (p0 * p1));
  }

  /** Moving both ranks up by the same number of planes changes nothing. */
  lemma PlaneShift(q: nat, x: nat, y: nat, p0: nat, p1: nat)
    requires p0 > 0 && p1 > 0 && Point(x + q * (p0 * p1), p0, p1) == Point(y + q * (p0 * p1), p0, p1)
    ensures Point(x, p0, p1) == Point(y, p0, p1)
  {
    assert q * (p0 * p1) == q * p1 * p0 == q * p0 * p1;
    ModOfSum(x, q * p1, p0);
    ModOfSum(y, q * p1, p0);
    QuotientOfSum(x, q * p0, p1);
    QuotientOfSum(y, q * p0, p1);
    ShiftMod(x / p1, y / p1, q * p0, p1);
  }

  lemma ShiftMod(a: nat, b: nat, k: nat, t: nat)
    requires t > 0 && (a + k) % t == (b + k) % t
    ensures a % t == b % t
  {
    if a <= b {
      var q := SameMod(a + k, b + k, t);
      ModOfSum(a, q, t);
    } else {
      var q := SameMod(b + k, a + k, t);
      ModOfSum(b, q, t);
    }
  }

  lemma Point3Splits(r: nat, s: nat, p0: nat, p1: nat, p2: nat)
    requires p0 > 0 && p1 > 0 && p2 > 0 && p0 * p1 > 0 && Injective(p0, p1)
    requires r < s < p0 * p1 * p2
    ensures Point3(r, p0, p1, p2) != Point3(s, p0, p1, p2)
  {
    var n := p0 * p1;
    Plane(r, p0, p1, p2);
    Plane(s, p0, p1, p2);
    DivMod(r, n);
    DivMod(s, n);
    if Point3(r, p0, p1, p2) == Point3(s, p0, p1, p2) { PlaneShift(r / n, r % n, s % n, p0, p1); }
  }

  /** A third dimension changes nothing: it is the first two that decide. */
  lemma Injective3Iff(p0: nat, p1: nat, p2: nat)
    requires p0 > 0 && p1 > 0 && p2 > 0 && p0 * p1 > 0
    ensures Injective3(p0, p1, p2) <==> Good(p0, p1)
  {
    InjectiveIff(p0, p1);
    if Good(p0, p1) {
      forall r: nat, s: nat | r < s < p0 * p1 * p2 ensures Point3(r, p0, p1, p2) != Point3(s, p0, p1, p2) {
        Point3Splits(r, s, p0, p1, p2);
      }
    } else {
      var r: nat, s: nat :| r < s < p0 * p1 && Point(r, p0, p1) == Point(s, p0, p1);
      MulMono(1, p2, p0 * p1);
      DivUnique(r, p0 * p1, 0, r);
      DivUnique(s, p0 * p1, 0, s);
      assert Point3(r, p0, p1, p2) == Point3(s, p0, p1, p2);
    }
  }
}
