/** Minimum, sums of sequences of naturals, quotients, remainders and products. */
module Arithmetic {

  function Min(a: int, b: int): (m: int)
    ensures m <= a && m <= b && (m == a || m == b)
  {
    if a < b then a else b
  }

  function Sum(s: seq<nat>): nat {
    if s == [] then 0 else Sum(s[..|s| - 1]) + s[|s| - 1]
  }

  lemma {:induction false} SumUpdate(s: seq<nat>, i: nat, v: nat)
    requires i < |s|
    ensures Sum(s[i := v]) + s[i] == Sum(s) + v
  {
    var n := |s| - 1;
    if i < n {
      SumUpdate(s[..n], i, v);
      assert s[i := v][..n] == s[..n][i := v];
    } else {
      assert s[i := v][..n] == s[..n];
    }
  }

  lemma {:induction false} SumConstant(s: seq<nat>, v: nat)
    requires forall k :: 0 <= k < |s| ==> s[k] == v
    ensures Sum(s) == v * |s|
  {
    if s != [] {
      SumConstant(s[..|s| - 1], v);
      Next(v, |s| - 1);
    }
  }

  lemma Next(v: nat, n: nat)
    ensures v * n + v == v * (n + 1)
  {
  }

  lemma AtLeastOne(m: nat, d: nat)
    requires d >= 1
    ensures m * d >= m
  {
    assert m * (d - 1) >= 0;
  }

  lemma QuotientIs(n: nat, m: nat, q: nat, r: nat)
    requires m > 0 && n == q * m + r && r < m
    ensures n / m == q && n % m == r
  {
    var q', r' := n / m, n % m;
    assert n == m * q' + r';
    if q' > q {
      AtLeastOne(m, q' - q);
    } else if q' < q {
      AtLeastOne(m, q - q');
    }
  }

  /** Stepping round a ring of `m` places. */
  lemma NextIndex(i: nat, m: nat)
    requires 0 < i <= m
    ensures i % m == if i == m then 0 else i
  {
  }

  lemma Successor(n: nat, m: nat)
    requires m > 0
    ensures (n + 1) % m == if n % m + 1 == m then 0 else n % m + 1
  {
    var q, r := n / m, n % m;
    CarryOver(n, m, q, r);
  }

  lemma CarryOver(n: nat, m: nat, q: nat, r: nat)
    requires m > 0 && n == q * m + r && r < m
    ensures (n + 1) % m == if r + 1 == m then 0 else r + 1
  {
    if r + 1 < m {
      QuotientIs(n + 1, m, q, r + 1);
    } else {
      assert (q + 1) * m == q * m + m;
      QuotientIs(n + 1, m, q + 1, 0);
    }
  }

  lemma CastProduct(a: nat, b: nat)
    ensures (a * b) as real == a as real * b as real
    ensures a > 0 && b > 0 ==> a * b > 0
  {
  }

  lemma ScaledOrder(x: real, y: real, d: real)
    requires d > 0.0
    ensures x <= y <==> x * d <= y * d
  {
  }
}
