/** Half-up multiplication of 27-decimal fixed-point numbers. */
module Ray {
  import opened Rounding

  const RAY: nat := 1_000_000_000_000_000_000_000_000_000
  const HALF_RAY: nat := RAY / 2

  function Mul(a: nat, b: nat): nat {
    FloorAtLeast(a * b + HALF_RAY, RAY, 0);
    (a * b + HALF_RAY) / RAY
  }

  /** The rounded product is the ray closest to the exact one, halves up. */
  lemma MulBounds(a: nat, b: nat)
    ensures a * b + HALF_RAY - RAY < Mul(a, b) * RAY <= a * b + HALF_RAY
  {
  }

  lemma MulMonotone(a: nat, b: nat, a': nat, b': nat)
    requires a <= a' && b <= b'
    ensures Mul(a, b) <= Mul(a', b')
  {
    MulMono(a, a', b);
    MulMono(b, b', a');
    FloorMono(a * b + HALF_RAY, a' * b' + HALF_RAY, RAY);
  }

  lemma MulOne(a: nat)
    ensures Mul(a, RAY) == a && Mul(RAY, a) == a
  {
  }

  /** Multiplying two growth factors adds at least their growths. */
  lemma MulGrowth(a: nat, b: nat, u: nat, v: nat)
    requires a >= RAY + u && b >= RAY + v
    ensures Mul(a, b) >= RAY + u + v
  {
    MulMonotone(RAY + u, RAY + v, a, b);
    var n := u * v + HALF_RAY;
    assert (RAY + u) * (RAY + v) + HALF_RAY == (RAY + u + v) * RAY + n;
    FloorShift(n, RAY, RAY + u + v);
    FloorAtLeast(n, RAY, 0);
  }
}
