/** What the modules share about numbers. */
module Arithmetic {
  function Min(a: nat, b: nat): nat {
    if a < b then a else b
  }

  function Max(a: nat, b: nat): nat {
    if a < b then b else a
  }

  function Pow2(n: nat): (r: nat)
    ensures r > n
  {
    if n == 0 then 1 else 2 * Pow2(n - 1)
  }

  /** The first of n, 2n, 4n and so on that is not below `req`. */
  function Doubled(n: nat, req: int): (r: nat)
    requires 0 < n || req <= 0
    ensures n <= r && req <= r && (r == n || r < 2 * req)
    decreases req - n
  {
    if n < req then Doubled(n * 2, req) else n
  }

  /** It is `n` times the least power of two that suffices. */
  lemma {:induction false} DoubledIsLeast(n: nat, req: int) returns (k: nat)
    requires 0 < n || req <= 0
    ensures Doubled(n, req) == n * Pow2(k) >= req
    ensures forall i: nat :: i < k ==> n * Pow2(i) < req
    decreases req - n
  {
    k := 0;
    if n < req {
      var later := DoubledIsLeast(n * 2, req);
      k := later + 1;
      DoubleFirst(n, k);
      forall i: nat | i < k
        ensures n * Pow2(i) < req
      {
        if i > 0 {
          DoubleFirst(n, i);
        }
      }
    }
  }

  lemma DoubleFirst(n: nat, i: nat)
    requires 0 < i
    ensures n * Pow2(i) == n * 2 * Pow2(i - 1)
  {
    Twofold(n, Pow2(i - 1));
  }

  lemma Twofold(n: nat, p: nat)
    ensures n * (2 * p) == n * 2 * p
  {}

  /** The first of n, n / 2, n / 4 and so on that is not above `req`. */
  function Halved(n: nat, req: nat): (r: nat)
    ensures r <= req && r <= n
    ensures 0 < n && 0 < req ==> 0 < r
  {
    if n <= req then n else Halved(n / 2, req)
  }

  /** It is `n` divided by the least power of two that suffices. */
  lemma {:induction false} HalvedIsLeast(n: nat, req: nat) returns (j: nat)
    ensures Halved(n, req) == n / Pow2(j) <= req
    ensures forall i: nat :: i < j ==> n / Pow2(i) > req
  {
    j := 0;
    if n > req {
      var later := HalvedIsLeast(n / 2, req);
      j := later + 1;
      HalfFirst(n, j);
      forall i: nat | i < j
        ensures n / Pow2(i) > req
      {
        if i > 0 {
          HalfFirst(n, i);
        }
      }
    }
  }

  lemma HalfFirst(n: nat, i: nat)
    requires 0 < i
    ensures n / Pow2(i) == n / 2 / Pow2(i - 1)
  {
    Half(n, Pow2(i - 1));
  }

  lemma Half(n: nat, p: nat)
    requires 0 < p
    ensures n / (2 * p) == n / 2 / p
  {
    var q, r := n / 2 / p, n / 2 % p;
    assert n / 2 == q * p + r;
    assert n == q * (2 * p) + (2 * r + n % 2) && 2 * r + n % 2 < 2 * p by {
      Twofold(q, p);
    }
    assert (q + 1) * (2 * p) == q * (2 * p) + 2 * p;
    DivBetween(n, 2 * p, q, q + 1);
  }

  lemma DivBetween(n: int, d: int, low: int, high: int)
    requires 0 < d && low * d <= n < high * d
    ensures low <= n / d < high
  {
    var q := n / d;
    assert q * d <= n < q * d + d;
    LessTimes(low, q + 1, d);
    LessTimes(q, high, d);
    assert (q + 1) * d == q * d + d;
  }

  lemma LessTimes(a: int, b: int, d: int)
    requires 0 < d
    ensures a * d < b * d ==> a < b
    ensures a <= b ==> a * d <= b * d
  {}
}
