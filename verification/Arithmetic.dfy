/** Division with remainder, as the index computations need it. All operands are non-negative, so
    Dafny's quotient is C's. */
module Arithmetic {

  lemma MulMono(a: int, b: int, k: nat)
    requires a <= b
    ensures a * k <= b * k
  {
  }

  /** The quotient and the remainder are the only ones. */
  lemma DivUnique(x: int, t: nat, q: int, r: int)
    requires t > 0 && x == q * t + r && 0 <= r < t
    ensures x / t == q && x % t == r
  {
    var p, s := x / t, x % t;
    assert x == p * t + s;
    if p < q { MulMono(p + 1, q, t); }
    if p > q { MulMono(q + 1, p, t); }
  }

  lemma DivMod(x: nat, t: nat)
    requires t > 0
    ensures x == x / t * t + x % t && 0 <= x % t < t && x / t >= 0
  {
  }

  lemma SameDigits(t: nat, p: int, r: int, q: int, s: int)
    requires p * t + r == q * t + s && 0 <= r < t && 0 <= s < t
    ensures p == q && r == s
  {
    DivUnique(p * t + r, t, p, r);
    DivUnique(q * t + s, t, q, s);
  }

  /** Digits of a number below a * b. */
  lemma DivBelow(x: nat, a: nat, b: nat)
    requires x < a * b && b > 0
    ensures 0 <= x / b < a
  {
  }

  lemma DigitsBelow(q: nat, a: nat, r: nat, b: nat)
    requires q < a && r < b
    ensures 0 <= q * b + r < a * b
  {
    MulMono(q + 1, a, b);
    MulMono(0, q, b);
  }

  predicate Distinct(s: seq<nat>) {
    forall i, j :: 0 <= i < j < |s| ==> s[i] != s[j]
  }

  predicate BelowAll(s: seq<nat>, n: nat) {
    forall i :: 0 <= i < |s| ==> s[i] < n
  }

  /** n distinct numbers below n are all the numbers below n. */
  lemma {:induction false} Pigeonhole(s: seq<nat>, y: nat)
    requires Distinct(s) && BelowAll(s, |s|) && y < |s|
    ensures exists i :: 0 <= i < |s| && s[i] == y
  {
    var n := |s| - 1;
    if j :| 0 <= j < |s| && s[j] == n {
      if y < n {
        var rest := s[..j] + s[j + 1..];
        Pigeonhole(rest, y);
        var i :| 0 <= i < |rest| && rest[i] == y;
        assert s[if i < j then i else i + 1] == y;
      }
    } else {
      Pigeonhole(s[..n], s[n]);
      assert false;
    }
  }
}
