/** Facts about the floored and rounded-up divisions that every valuation in the kernel is made of. */
module Rounding {

  /** A floored quotient is the largest integer whose product with the divisor fits. */
  lemma FloorIs(n: int, d: int, q: int)
    requires d > 0
    ensures q * d <= n < (q + 1) * d <==> q == n / d
  {
    var r := n / d;
    assert n == r * d + n % d;
    if q * d <= n < (q + 1) * d {
      if q < r {
        MulMono(q + 1, r, d);
      } else if r < q {
        MulMono(r + 1, q, d);
      }
    }
  }

  lemma MulMono(a: int, b: int, c: int)
    requires a <= b && 0 <= c
    ensures a * c <= b * c
  {
  }

  lemma ProductMono(a: nat, a': nat, b: nat, b': nat)
    requires a <= a' && b <= b'
    ensures a * b <= a' * b'
  {
  }

  lemma CancelFactor(x: int, y: int, m: int)
    requires 0 < m
    ensures x * m <= y * m <==> x <= y
  {
  }

  /** `q * d <= n` says exactly that `q` is at most the floored quotient. */
  lemma FloorAtLeast(n: int, d: int, q: int)
    requires d > 0
    ensures q * d <= n <==> q <= n / d
  {
    var r := n / d;
    FloorIs(n, d, r);
    if q <= r {
      MulMono(q, r, d);
    } else {
      MulMono(r + 1, q, d);
    }
  }

  lemma FloorMono(m: int, n: int, d: int)
    requires d > 0 && m <= n
    ensures m / d <= n / d
  {
    FloorIs(m, d, m / d);
    FloorAtLeast(n, d, m / d);
  }

  /** Two floored quotients never exceed the floored quotient of the sum, and lose at most one unit. */
  lemma FloorOfSum(m: int, n: int, d: int)
    requires d > 0
    ensures m / d + n / d <= (m + n) / d <= m / d + n / d + 1
  {
    FloorIs(m, d, m / d);
    FloorIs(n, d, n / d);
    var q := m / d + n / d;
    assert q * d == (m / d) * d + (n / d) * d;
    FloorAtLeast(m + n, d, q);
    assert (q + 2) * d == (m / d + 1) * d + (n / d + 1) * d;
    FloorAtLeast(m + n, d, q + 2);
  }

  /** Adding whole multiples of the divisor shifts the quotient exactly. */
  lemma FloorShift(n: int, d: int, k: int)
    requires d > 0
    ensures (k * d + n) / d == k + n / d
  {
    FloorIs(n, d, n / d);
    assert (k + n / d) * d == k * d + (n / d) * d;
    assert (k + n / d + 1) * d == k * d + (n / d + 1) * d;
    FloorIs(k * d + n, d, k + n / d);
  }

  // ---------- Pro-rata shares ----------

  function Sum(xs: seq<nat>): nat {
    if xs == [] then 0 else xs[0] + Sum(xs[1..])
  }

  /** The floored pro-rata amounts `x * n / d`, one per holder. */
  function FlooredShares(xs: seq<nat>, n: nat, d: nat): (shares: seq<nat>)
    requires d > 0
    ensures |shares| == |xs|
  {
    seq(|xs|, i requires 0 <= i < |xs| => Share(xs[i], n, d))
  }

  function Share(x: nat, n: nat, d: nat): nat
    requires d > 0
  {
    FloorAtLeast(x * n, d, 0);
    x * n / d
  }

  /** Flooring each holder's share never pays out more than the holders' shares together are worth, and
      withholds at most one unit for each of them. */
  lemma {:induction false} FlooredSharesFit(xs: seq<nat>, n: nat, d: nat)
    requires d > 0
    ensures Sum(FlooredShares(xs, n, d)) <= Share(Sum(xs), n, d) <= Sum(FlooredShares(xs, n, d)) + |xs|
  {
    if xs == [] {
      FloorIs(0, d, 0);
    } else {
      FlooredSharesFit(xs[1..], n, d);
      assert FlooredShares(xs, n, d)[1..] == FlooredShares(xs[1..], n, d);
      TwoSharesFit(xs[0], Sum(xs[1..]), n, d);
    }
  }

  lemma TwoSharesFit(x: nat, y: nat, n: nat, d: nat)
    requires d > 0
    ensures Share(x, n, d) + Share(y, n, d) <= Share(x + y, n, d) <= Share(x, n, d) + Share(y, n, d) + 1
  {
    FloorOfSum(x * n, y * n, d);
    assert x * n + y * n == (x + y) * n;
  }
}
