/** Maker's savings-rate accrual: `rpow` by rounded square-and-multiply, and the chi it compounds. */
module Maker {
  import opened Ray
  import opened Rounding

  /** The rest of the square-and-multiply loop with `n` still to consume. */
  function Climb(current: nat, z: nat, n: nat): nat
    decreases n
  {
    if n == 0 then z else
    var squared := Mul(current, current);
    Climb(squared, if n % 2 != 0 then Mul(z, squared) else z, n / 2)
  }

  function RayPower(x: nat, exponent: nat): nat {
    if x == 0 then (if exponent == 0 then RAY else 0)
    else Climb(x, if exponent % 2 != 0 then x else RAY, exponent / 2)
  }

  method ComputeRayPower(x: nat, exponent: nat) returns (z: nat)
    ensures z == RayPower(x, exponent)
  {
    if x == 0 {
      if exponent == 0 {
        return RAY;
      }
      return 0;
    }
    z := RAY;
    if exponent % 2 != 0 {
      z := x;
    }
    var current := x;
    var n := exponent / 2;
    while n > 0
      invariant n >= 0 && Climb(current, z, n) == RayPower(x, exponent)
    {
      current := Mul(current, current);
      if n % 2 != 0 {
        z := Mul(z, current);
      }
      n := n / 2;
    }
  }

  // ---------- Growth is at least linear ----------

  lemma {:induction false} ClimbGrowth(current: nat, z: nat, n: nat, u: nat, v: nat)
    requires current >= RAY + u && z >= RAY + v
    ensures Climb(current, z, n) >= RAY + v + 2 * n * u
    decreases n
  {
    if n > 0 {
      var squared := Mul(current, current);
      MulGrowth(current, current, u, u);
      if n % 2 != 0 {
        MulGrowth(z, squared, v, 2 * u);
        ClimbGrowth(squared, Mul(z, squared), n / 2, 2 * u, v + 2 * u);
        assert v + 2 * u + 2 * (n / 2) * (2 * u) == v + 2 * n * u by { Halves(n, u); }
      } else {
        ClimbGrowth(squared, z, n / 2, 2 * u, v);
        assert v + 2 * (n / 2) * (2 * u) == v + 2 * n * u by { Halves(n, u); }
      }
    }
  }

  lemma Halves(n: nat, u: nat)
    ensures 2 * (n / 2) * (2 * u) + (if n % 2 != 0 then 2 * u else 0) == 2 * n * u
  {
    var h := n / 2;
    assert n == 2 * h + n % 2;
    assert 2 * (2 * h) * u == 2 * h * (2 * u);
    assert 2 * (2 * h + 1) * u == 2 * (2 * h) * u + 2 * u;
  }

  /** Bernoulli's inequality survives the rounding of every step. */
  lemma RayPowerBernoulli(r: nat, n: nat)
    ensures RayPower(RAY + r, n) >= RAY + n * r
  {
    var v := if n % 2 != 0 then r else 0;
    ClimbGrowth(RAY + r, RAY + v, n / 2, r, v);
    assert v + 2 * (n / 2) * r == n * r by {
      assert n == 2 * (n / 2) + n % 2;
      assert (2 * (n / 2) + 1) * r == 2 * (n / 2) * r + r;
    }
  }

  // ---------- Monotone in the base ----------

  lemma {:induction false} ClimbMonotone(current: nat, z: nat, current': nat, z': nat, n: nat)
    requires current <= current' && z <= z'
    ensures Climb(current, z, n) <= Climb(current', z', n)
    decreases n
  {
    if n > 0 {
      MulMonotone(current, current, current', current');
      var s, s' := Mul(current, current), Mul(current', current');
      MulMonotone(z, s, z', s');
      ClimbMonotone(s, if n % 2 != 0 then Mul(z, s) else z, s', if n % 2 != 0 then Mul(z', s') else z', n / 2);
    }
  }

  lemma RayPowerMonotone(x: nat, y: nat, n: nat)
    requires x <= y
    ensures RayPower(x, n) <= RayPower(y, n)
  {
    if x != 0 {
      ClimbMonotone(x, if n % 2 != 0 then x else RAY, y, if n % 2 != 0 then y else RAY, n / 2);
    }
  }

  lemma {:induction false} ClimbOne(n: nat)
    ensures Climb(RAY, RAY, n) == RAY
  {
    if n > 0 {
      MulOne(RAY);
      ClimbOne(n / 2);
    }
  }

  /** A zero rate never moves. */
  lemma RayPowerOne(n: nat)
    ensures RayPower(RAY, n) == RAY
  {
    ClimbOne(n / 2);
  }

  /** A zero base has no power but its zeroth; every base has one ray as its zeroth and itself as its first. */
  lemma RayPowerAtTheEnds(x: nat, n: nat)
    ensures RayPower(x, 0) == RAY && RayPower(x, 1) == x
    ensures n > 0 ==> RayPower(0, n) == 0
  {
  }

  // ---------- Against the exact power ----------

  function Pow(b: nat, e: nat): nat {
    if e == 0 then 1 else b * Pow(b, e - 1)
  }

  lemma {:induction false} PowSum(b: nat, i: nat, j: nat)
    ensures Pow(b, i + j) == Pow(b, i) * Pow(b, j)
  {
    if i > 0 {
      PowSum(b, i - 1, j);
      Associate(b, Pow(b, i - 1), Pow(b, j));
    }
  }

  lemma Associate(a: nat, b: nat, c: nat)
    ensures a * b * c == a * (b * c)
  {
  }

  /** `a` stands for `x^e` in rays, strictly between the exact powers of the two neighbouring bases. */
  ghost predicate Near(x: nat, a: nat, e: nat)
    requires x > 0
  {
    && a >= RAY
    && RAY * Pow(x - 1, e) <= (a - 1) * Pow(RAY, e)
    && (a + 1) * Pow(RAY, e) <= RAY * Pow(x + 1, e)
  }

  /** Scaled upper bounds multiply. */
  lemma UpperProduct(p: nat, q: nat, a: nat, b: nat, m: nat, y: nat, w: nat)
    requires (m + 1) * RAY <= (a + 1) * (b + 1)
    requires (a + 1) * p <= RAY * y && (b + 1) * q <= RAY * w
    ensures (m + 1) * (p * q) <= RAY * (y * w)
  {
  }

  /** Scaled lower bounds multiply. */
  lemma LowerProduct(p: nat, q: nat, a: nat, b: nat, m: nat, y: nat, w: nat)
    requires a >= 1 && b >= 1 && m >= 1
    requires (a - 1) * (b - 1) <= (m - 1) * RAY
    requires RAY * y <= (a - 1) * p && RAY * w <= (b - 1) * q
    ensures RAY * (y * w) <= (m - 1) * (p * q)
  {
  }

  /** Rounding one product of growth factors stays within its neighbours' exact product. */
  lemma RoundingSlack(a: nat, b: nat)
    requires a >= RAY && b >= RAY
    ensures var m := Mul(a, b);
            m >= RAY && (m + 1) * RAY <= (a + 1) * (b + 1) && (a - 1) * (b - 1) <= (m - 1) * RAY
  {
  }

  lemma NearProduct(x: nat, a: nat, i: nat, b: nat, j: nat)
    requires x > 0 && Near(x, a, i) && Near(x, b, j)
    ensures Near(x, Mul(a, b), i + j)
  {
    RoundingSlack(a, b);
    PowSum(RAY, i, j);
    PowSum(x - 1, i, j);
    PowSum(x + 1, i, j);
    UpperProduct(Pow(RAY, i), Pow(RAY, j), a, b, Mul(a, b), Pow(x + 1, i), Pow(x + 1, j));
    LowerProduct(Pow(RAY, i), Pow(RAY, j), a, b, Mul(a, b), Pow(x - 1, i), Pow(x - 1, j));
  }

  /** Whatever exponent is left, the loop ends near the power it stands for. */
  lemma {:induction false} ClimbNear(x: nat, current: nat, e: nat, z: nat, f: nat, n: nat)
    requires x > 0 && e > 0 && Near(x, current, e)
    requires Near(x, z, f) || (f == 0 && z == RAY && n > 0)
    ensures Near(x, Climb(current, z, n), f + 2 * n * e)
    decreases n
  {
    if n > 0 {
      var squared := Mul(current, current);
      NearProduct(x, current, e, current, e);
      if n % 2 != 0 {
        if Near(x, z, f) {
          NearProduct(x, z, f, squared, 2 * e);
        } else {
          MulOne(squared);
        }
        ClimbNear(x, squared, 2 * e, Mul(z, squared), f + 2 * e, n / 2);
        assert f + 2 * e + 2 * (n / 2) * (2 * e) == f + 2 * n * e by { Halves(n, e); }
      } else {
        ClimbNear(x, squared, 2 * e, z, f, n / 2);
        assert f + 2 * (n / 2) * (2 * e) == f + 2 * n * e by { Halves(n, e); }
      }
    }
  }

  /** The rounded power lies strictly between the exact powers of the bases one ray unit below and above
      its own: `RAY * ((x-1)/RAY)^n < rpow(x, n) < RAY * ((x+1)/RAY)^n`. */
  ghost predicate Enclosed(x: nat, n: nat)
    requires x > 0
  {
    Near(x, RayPower(x, n), n)
  }

  /** Every power of a growth factor is enclosed. */
  lemma RayPowerEnclosed(x: nat)
    requires x >= RAY
    ensures forall n: nat :: n > 0 ==> Enclosed(x, n)
  {
    PowOne(x - 1);
    PowOne(x + 1);
    PowOne(RAY);
    assert (x - 1) * RAY == RAY * (x - 1);
    assert (x + 1) * RAY == RAY * (x + 1);
    forall n: nat | n > 0
      ensures Enclosed(x, n)
    {
      ClimbNear(x, x, 1, if n % 2 != 0 then x else RAY, n % 2, n / 2);
      assert n % 2 + 2 * (n / 2) * 1 == n;
    }
  }

  lemma PowOne(b: nat)
    ensures Pow(b, 1) == b
  {
  }

  // ---------- Chi ----------

  datatype Accrual = Chi(value: nat) | RhoAhead

  function AccruedChi(chi: nat, dsr: nat, rho: nat, timestamp: nat): Accrual {
    if timestamp < rho then RhoAhead else Chi(Share(RayPower(dsr, timestamp - rho), chi, RAY))
  }

  /** Accrued chi never falls below simple interest on the persisted chi. */
  lemma ChiAtLeastSimpleInterest(chi: nat, r: nat, rho: nat, timestamp: nat)
    requires rho <= timestamp
    ensures var n := timestamp - rho;
            AccruedChi(chi, RAY + r, rho, timestamp).value >= chi + Share(n * r, chi, RAY)
  {
    var n := timestamp - rho;
    var power := RayPower(RAY + r, n);
    RayPowerBernoulli(r, n);
    ShareAfterGrowth(n * r, power, chi);
  }

  /** Chi accrues exactly from the moment it was stored: nothing before it, nothing at it, and after `n`
      seconds the compounding lies strictly between `n` exact ones at the two neighbouring rates. */
  lemma ChiEnclosed(chi: nat, dsr: nat, rho: nat, timestamp: nat)
    requires dsr >= RAY
    ensures AccruedChi(chi, dsr, rho, timestamp).RhoAhead? <==> timestamp < rho
    ensures timestamp == rho ==> AccruedChi(chi, dsr, rho, timestamp) == Chi(chi)
    ensures timestamp > rho ==>
              var n, value := timestamp - rho, AccruedChi(chi, dsr, rho, timestamp).value;
              && value * Pow(RAY, n) <= chi * Pow(dsr + 1, n)
              && chi * Pow(dsr - 1, n) < (value + 1) * Pow(RAY, n)
  {
    if timestamp >= rho {
      var n := timestamp - rho;
      var power := RayPower(dsr, n);
      var value := Share(power, chi, RAY);
      FloorIs(power * chi, RAY, value);
      if n > 0 {
        RayPowerEnclosed(dsr);
        assert Enclosed(dsr, n);
        PowPositive(RAY, n);
        ScaledChi(chi, power, value, Pow(RAY, n), Pow(dsr + 1, n), Pow(dsr - 1, n));
      }
    }
  }

  lemma {:induction false} PowPositive(b: nat, e: nat)
    requires b > 0
    ensures Pow(b, e) > 0
  {
    if e > 0 {
      PowPositive(b, e - 1);
    }
  }

  lemma ScaledChi(chi: nat, power: nat, value: nat, unit: nat, above: nat, below: nat)
    requires unit > 0 && power >= 1
    requires value * RAY <= power * chi < (value + 1) * RAY
    requires (power + 1) * unit <= RAY * above && RAY * below <= (power - 1) * unit
    ensures value * unit <= chi * above && chi * below < (value + 1) * unit
  {
    calc {
      value * unit * RAY;
      value * RAY * unit;
    <= { MulMono(value * RAY, power * chi, unit); }
      power * chi * unit;
      { assert power * chi * unit == power * unit * chi; }
      power * unit * chi;
    <= { MulMono(power * unit, RAY * above, chi); }
      RAY * above * chi;
      { assert RAY * above * chi == chi * above * RAY; }
      chi * above * RAY;
    }
    CancelFactor(value * unit, chi * above, RAY);
    calc {
      chi * below * RAY;
      { assert chi * below * RAY == RAY * below * chi; }
      RAY * below * chi;
    <= { MulMono(RAY * below, (power - 1) * unit, chi); }
      (power - 1) * unit * chi;
    <= { MulMono((power - 1) * unit, power * unit, chi); }
      power * unit * chi;
      { assert power * unit * chi == power * chi * unit; }
      power * chi * unit;
    <= { MulMono(power * chi, (value + 1) * RAY - 1, unit); }
      ((value + 1) * RAY - 1) * unit;
      { assert ((value + 1) * RAY - 1) * unit == (value + 1) * unit * RAY - unit; }
      (value + 1) * unit * RAY - unit;
    }
    if chi * below >= (value + 1) * unit {
      MulMono((value + 1) * unit, chi * below, RAY);
    }
  }

  lemma ShareAfterGrowth(growth: nat, power: nat, chi: nat)
    requires power >= RAY + growth
    ensures Share(power, chi, RAY) >= chi + Share(growth, chi, RAY)
  {
  }
}
